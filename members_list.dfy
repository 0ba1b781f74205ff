/**
 * The member directory: the search and status filters, and the status label
 * and colour shown for each member. A member is active when it attended on
 * or after the moment three weeks before `now`.
 */
module MembersList {
  import opened Wrappers
  import opened Ascii
  import opened Seqs
  import opened Schema

  const SecondsPerDay := 86400
  const FollowUpDays := 21

  /** `threeWeeksAgo`: 21 days before `now`. */
  function ThreeWeeksAgo(now: int): int {
    now - FollowUpDays * SecondsPerDay
  }

  /** Attended on or after the threshold: at most 21 days ago (or at a later time). */
  function AttendedRecently(lastAttendance: Option<int>, now: int): (recent: bool)
    ensures recent <==> lastAttendance.Some? && now - lastAttendance.value <= FollowUpDays * SecondsPerDay
  {
    lastAttendance.Some? && lastAttendance.value >= ThreeWeeksAgo(now)
  }

  /** Never attended, or last attended before the threshold: more than 21 days ago. */
  function NeedsFollowUp(lastAttendance: Option<int>, now: int): (due: bool)
    ensures lastAttendance.None? ==> due
    ensures lastAttendance.Some? ==> (due <==> now - lastAttendance.value > FollowUpDays * SecondsPerDay)
  {
    lastAttendance.None? || lastAttendance.value < ThreeWeeksAgo(now)
  }

  /** Every member is exactly one of active and due for follow-up. */
  lemma ActiveOrFollowUp(lastAttendance: Option<int>, now: int)
    ensures AttendedRecently(lastAttendance, now) != NeedsFollowUp(lastAttendance, now)
  {
  }

  // ---------------------------------------------------------------------------
  // filterMembers

  /**
   * The search: the term, lower-cased, occurs in the lower-cased name, course
   * or hall, or the raw term occurs in the phone number.
   */
  function MatchesSearch(m: MemberRow, term: string): (found: bool)
    ensures Includes(m.phoneNumber, term) ==> found
    ensures term == "" ==> found
    ensures || Includes(Lower(m.fullName), Lower(term))
            || Includes(Lower(m.courseOfStudy), Lower(term))
            || Includes(Lower(m.hallHostel), Lower(term))
            ==> found
  {
    IncludesEmpty(m.phoneNumber);
    || Includes(Lower(m.fullName), Lower(term))
    || Includes(m.phoneNumber, term)
    || Includes(Lower(m.courseOfStudy), Lower(term))
    || Includes(Lower(m.hallHostel), Lower(term))
  }

  /** A member none of whose four searched fields contains the term is not matched. */
  lemma NoFieldContainsTerm(m: MemberRow, term: string)
    requires !Includes(m.phoneNumber, term)
    requires !Includes(Lower(m.fullName), Lower(term))
    requires !Includes(Lower(m.courseOfStudy), Lower(term))
    requires !Includes(Lower(m.hallHostel), Lower(term))
    ensures !MatchesSearch(m, term)
  {
  }

  /** The status filter; 'all' and any value it does not know keep everyone. */
  function PassesStatus(m: MemberRow, status: string, now: int): (pass: bool)
    ensures status !in {"active", "inactive", "first-timer"} ==> pass
    ensures status == "first-timer" ==> (pass <==> m.visitorStatus == FirstTimer)
    ensures status == "active" || status == "inactive" ==>
      (pass <==> (status == "active") == AttendedRecently(m.lastAttendanceDate, now))
  {
    if status == "active" then AttendedRecently(m.lastAttendanceDate, now)
    else if status == "inactive" then NeedsFollowUp(m.lastAttendanceDate, now)
    else if status == "first-timer" then m.visitorStatus == FirstTimer
    else true
  }

  predicate Selected(m: MemberRow, term: string, status: string, now: int) {
    MatchesSearch(m, term) && PassesStatus(m, status, now)
  }

  /** An empty search term matches every member. */
  lemma EmptySearchMatchesAll(m: MemberRow)
    ensures MatchesSearch(m, "")
  {
    IncludesEmpty(m.phoneNumber);
  }

  /** The members shown: those that pass both filters, in the fetched order. */
  function Filtered(members: seq<MemberRow>, term: string, status: string, now: int): (r: seq<MemberRow>)
    ensures IsSubsequence(r, members)
    ensures forall m :: m in r <==> m in members && Selected(m, term, status, now)
    ensures forall m :: multiset(r)[m] == if Selected(m, term, status, now) then multiset(members)[m] else 0
  {
    var keep := m => Selected(m, term, status, now);
    forall m
      ensures multiset(Where(members, keep))[m] == if Selected(m, term, status, now) then multiset(members)[m] else 0
    {
      WhereCounts(members, keep, m);
    }
    WhereIsSubsequence(members, keep);
    forall m
      ensures m in Where(members, keep) <==> m in members && Selected(m, term, status, now)
    {
      WhereContains(members, keep, m);
    }
    Where(members, keep)
  }

  /**
   * `filterMembers`: narrows the fetched list first by the search term (when
   * there is one), then by the status filter (unless it is 'all').
   */
  method FilterMembers(members: seq<MemberRow>, searchTerm: string, filterStatus: string, now: int)
    returns (filtered: seq<MemberRow>)
    ensures filtered == Filtered(members, searchTerm, filterStatus, now)
  {
    filtered := members;

    if searchTerm != "" {
      filtered := Where(filtered, (m: MemberRow) => MatchesSearch(m, searchTerm));
    } else {
      forall i | 0 <= i < |members|
        ensures MatchesSearch(members[i], searchTerm)
      {
        EmptySearchMatchesAll(members[i]);
      }
      WhereKeepsAll(members, m => MatchesSearch(m, searchTerm));
    }
    ghost var searched := Where(members, m => MatchesSearch(m, searchTerm));
    assert filtered == searched;

    if filterStatus != "all" {
      if filterStatus == "active" {
        filtered := Where(filtered, (m: MemberRow) => AttendedRecently(m.lastAttendanceDate, now));
      } else if filterStatus == "inactive" {
        filtered := Where(filtered, (m: MemberRow) => NeedsFollowUp(m.lastAttendanceDate, now));
      } else if filterStatus == "first-timer" {
        filtered := Where(filtered, (m: MemberRow) => m.visitorStatus == FirstTimer);
      }
    }
    ghost var byStatus := (m: MemberRow) => PassesStatus(m, filterStatus, now);
    if filterStatus == "active" {
      WhereCongruent(searched, (m: MemberRow) => AttendedRecently(m.lastAttendanceDate, now), byStatus);
    } else if filterStatus == "inactive" {
      WhereCongruent(searched, (m: MemberRow) => NeedsFollowUp(m.lastAttendanceDate, now), byStatus);
    } else if filterStatus == "first-timer" {
      WhereCongruent(searched, (m: MemberRow) => m.visitorStatus == FirstTimer, byStatus);
    } else {
      WhereKeepsAll(searched, byStatus);
    }
    assert filtered == Where(searched, byStatus);
    WhereThenWhere(members, m => MatchesSearch(m, searchTerm), byStatus, m => Selected(m, searchTerm, filterStatus, now));
  }

  /** With no search term and the 'all' filter, every member is shown, in order. */
  lemma NoFiltersShowEveryone(members: seq<MemberRow>, now: int)
    ensures Filtered(members, "", "all", now) == members
  {
    forall i | 0 <= i < |members|
      ensures Selected(members[i], "", "all", now)
    {
      EmptySearchMatchesAll(members[i]);
    }
    WhereKeepsAll(members, m => Selected(m, "", "all", now));
  }

  /**
   * For one search term and one `now`, the 'active' and 'inactive' lists split
   * the 'all' list: each shown member is in exactly one of them.
   */
  lemma ActiveInactivePartition(members: seq<MemberRow>, term: string, now: int)
    ensures multiset(Filtered(members, term, "active", now)) + multiset(Filtered(members, term, "inactive", now))
         == multiset(Filtered(members, term, "all", now))
    ensures |Filtered(members, term, "active", now)| + |Filtered(members, term, "inactive", now)|
         == |Filtered(members, term, "all", now)|
  {
    WherePartition(members, m => Selected(m, term, "all", now),
                   m => Selected(m, term, "active", now), m => Selected(m, term, "inactive", now));
  }

  // ---------------------------------------------------------------------------
  // getStatusText / getStatusColor

  const NeverAttendedColor := "bg-gray-100 text-gray-800 dark:bg-gray-800 dark:text-gray-300"
  const ActiveColor := "bg-green-100 text-green-800 dark:bg-green-900 dark:text-green-300"
  const FollowUpColor := "bg-orange-100 text-orange-800 dark:bg-orange-900 dark:text-orange-300"

  /** `getStatusText` */
  function StatusText(m: MemberRow, now: int): (text: string)
    ensures text == "Never attended" <==> m.lastAttendanceDate.None?
    ensures text == "Active" <==> AttendedRecently(m.lastAttendanceDate, now)
    ensures text == "Needs follow-up" <==> m.lastAttendanceDate.Some? && NeedsFollowUp(m.lastAttendanceDate, now)
  {
    if m.lastAttendanceDate.None? then "Never attended"
    else if m.lastAttendanceDate.value >= ThreeWeeksAgo(now) then "Active"
    else "Needs follow-up"
  }

  /** `getStatusColor`: grey, green or orange, in step with the status text. */
  function StatusColor(m: MemberRow, now: int): (color: string)
    ensures color == NeverAttendedColor <==> StatusText(m, now) == "Never attended"
    ensures color == ActiveColor <==> StatusText(m, now) == "Active"
    ensures color == FollowUpColor <==> StatusText(m, now) == "Needs follow-up"
  {
    if m.lastAttendanceDate.None? then NeverAttendedColor
    else if m.lastAttendanceDate.value >= ThreeWeeksAgo(now) then ActiveColor
    else FollowUpColor
  }

  /** A shown member is in the 'active' list exactly when its label reads "Active". */
  lemma ActiveFilterMatchesLabel(members: seq<MemberRow>, term: string, now: int, m: MemberRow)
    ensures m in Filtered(members, term, "active", now) <==>
            m in Filtered(members, term, "all", now) && StatusText(m, now) == "Active"
  {
  }
}
