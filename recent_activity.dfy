/**
 * The dashboard's recent-activity feed: recent check-ins, new members and new
 * events are turned into tagged items, appended in that order, sorted newest
 * first in place, and the first ten are shown.
 */
module RecentActivity {
  import opened Wrappers
  import opened Seqs
  import opened Schema
  import opened Ascii

  datatype ActivityKind = AttendanceActivity | MemberActivity | EventActivity

  /** One feed item; `timestamp` is the moment it happened. */
  datatype Activity = Activity(id: Uuid, kind: ActivityKind, description: string, timestamp: int)

  /** A fetched check-in with the joined member and event names, which may be missing. */
  datatype CheckInRow = CheckInRow(id: Uuid, checkedInAt: int, memberName: Option<string>, eventName: Option<string>)

  /** A fetched member: id, full name, creation time. */
  datatype NewMemberRow = NewMemberRow(id: Uuid, fullName: string, createdAt: int)

  /** A fetched event: id, name, creation time. */
  datatype NewEventRow = NewEventRow(id: Uuid, eventName: string, createdAt: int)

  /** The `.limit(...)` of each of the three queries, and the length of the feed. */
  const CheckInLimit := 5
  const NewMemberLimit := 3
  const NewEventLimit := 2
  const FeedLength := 10

  /** A template-literal substitution of an optional value: a missing one prints as "undefined". */
  function Show(v: Option<string>): string {
    if v.Some? then v.value else "undefined"
  }

  const CheckedInTo := " checked in to "

  /** "<member> checked in to <event>", under the check-in's id and time. */
  function CheckInItem(a: CheckInRow): (item: Activity)
    ensures item.id == a.id && item.kind == AttendanceActivity && item.timestamp == a.checkedInAt
  {
    Activity(a.id, AttendanceActivity, Show(a.memberName) + CheckedInTo + Show(a.eventName), a.checkedInAt)
  }

  /**
   * A check-in's text is the member's name, then ` checked in to `, then the
   * event's name; a name the join did not return reads "undefined".
   */
  lemma CheckInDescription(a: CheckInRow)
    ensures var d, who := CheckInItem(a).description, Show(a.memberName);
      && |d| == |who| + |CheckedInTo| + |Show(a.eventName)|
      && StartsWith(d, who)
      && d[|who|..|who| + |CheckedInTo|] == CheckedInTo
      && EndsWith(d, Show(a.eventName))
    ensures a.memberName.None? ==> StartsWith(CheckInItem(a).description, "undefined")
  {
    var who := Show(a.memberName);
    var d := CheckInItem(a).description;
    assert d[..|who|] == who;
    assert d[|who|..|who| + |CheckedInTo|] == CheckedInTo;
    assert d[|d| - |Show(a.eventName)|..] == Show(a.eventName);
  }

  const JoinedPrefix := "New member "
  const JoinedSuffix := " joined"

  /** "New member <name> joined", under the member's id and creation time; the name can be read back. */
  function NewMemberItem(m: NewMemberRow): (item: Activity)
    ensures item.id == m.id && item.kind == MemberActivity && item.timestamp == m.createdAt
    ensures StartsWith(item.description, JoinedPrefix) && EndsWith(item.description, JoinedSuffix)
    ensures |item.description| == |JoinedPrefix| + |m.fullName| + |JoinedSuffix|
    ensures item.description[|JoinedPrefix|..|item.description| - |JoinedSuffix|] == m.fullName
  {
    var d := JoinedPrefix + m.fullName + JoinedSuffix;
    assert d[..|JoinedPrefix|] == JoinedPrefix;
    assert d[|d| - |JoinedSuffix|..] == JoinedSuffix;
    assert d[|JoinedPrefix|..|d| - |JoinedSuffix|] == m.fullName;
    Activity(m.id, MemberActivity, d, m.createdAt)
  }

  const CreatedPrefix := "Event \""
  const CreatedSuffix := "\" was created"

  /** `Event "<name>" was created`, under the event's id and creation time; the name can be read back. */
  function NewEventItem(e: NewEventRow): (item: Activity)
    ensures item.id == e.id && item.kind == EventActivity && item.timestamp == e.createdAt
    ensures StartsWith(item.description, CreatedPrefix) && EndsWith(item.description, CreatedSuffix)
    ensures |item.description| == |CreatedPrefix| + |e.eventName| + |CreatedSuffix|
    ensures item.description[|CreatedPrefix|..|item.description| - |CreatedSuffix|] == e.eventName
  {
    var d := CreatedPrefix + e.eventName + CreatedSuffix;
    assert d[..|CreatedPrefix|] == CreatedPrefix;
    assert d[|d| - |CreatedSuffix|..] == CreatedSuffix;
    assert d[|CreatedPrefix|..|d| - |CreatedSuffix|] == e.eventName;
    Activity(e.id, EventActivity, d, e.createdAt)
  }

  /** The rows of a query, none when its data is absent. */
  function Rows<T>(data: Option<seq<T>>): seq<T> {
    if data.Some? then data.value else []
  }

  /** The list before sorting: check-ins, then new members, then new events, each in fetched order. */
  function Built(checkIns: Option<seq<CheckInRow>>, members: Option<seq<NewMemberRow>>, events: Option<seq<NewEventRow>>)
    : seq<Activity>
  {
    Map(Rows(checkIns), CheckInItem) + Map(Rows(members), NewMemberItem) + Map(Rows(events), NewEventItem)
  }

  /** Newest first: timestamps never increase along the list. */
  predicate NewestFirst(s: seq<Activity>) {
    forall i, j :: 0 <= i < j < |s| ==> s[i].timestamp >= s[j].timestamp
  }

  /**
   * The three `forEach` loops that `push` into `activities`. Each item carries
   * the tag of its source and the description template of its kind.
   */
  method BuildActivities(checkIns: Option<seq<CheckInRow>>, members: Option<seq<NewMemberRow>>, events: Option<seq<NewEventRow>>)
    returns (activities: seq<Activity>)
    ensures activities == Built(checkIns, members, events)
  {
    activities := [];
    if checkIns.Some? {
      activities := PushCheckIns(activities, checkIns.value);
    }
    assert activities == Map(Rows(checkIns), CheckInItem);
    if members.Some? {
      activities := PushNewMembers(activities, members.value);
    }
    assert activities == Map(Rows(checkIns), CheckInItem) + Map(Rows(members), NewMemberItem);
    if events.Some? {
      activities := PushNewEvents(activities, events.value);
    }
  }

  /** `data.forEach(a => activities.push(...))` for the check-ins. */
  method PushCheckIns(start: seq<Activity>, rows: seq<CheckInRow>) returns (activities: seq<Activity>)
    ensures activities == start + Map(rows, CheckInItem)
  {
    activities := start;
    for i := 0 to |rows|
      invariant |activities| == |start| + i
      invariant activities[..|start|] == start
      invariant forall k :: 0 <= k < i ==> activities[|start| + k] == CheckInItem(rows[k])
    {
      activities := activities + [CheckInItem(rows[i])];
    }
    MapAppended(activities, start, rows, CheckInItem);
  }

  /** `data.forEach(m => activities.push(...))` for the new members. */
  method PushNewMembers(start: seq<Activity>, rows: seq<NewMemberRow>) returns (activities: seq<Activity>)
    ensures activities == start + Map(rows, NewMemberItem)
  {
    activities := start;
    for i := 0 to |rows|
      invariant |activities| == |start| + i
      invariant activities[..|start|] == start
      invariant forall k :: 0 <= k < i ==> activities[|start| + k] == NewMemberItem(rows[k])
    {
      activities := activities + [NewMemberItem(rows[i])];
    }
    MapAppended(activities, start, rows, NewMemberItem);
  }

  /** `data.forEach(e => activities.push(...))` for the new events. */
  method PushNewEvents(start: seq<Activity>, rows: seq<NewEventRow>) returns (activities: seq<Activity>)
    ensures activities == start + Map(rows, NewEventItem)
  {
    activities := start;
    for i := 0 to |rows|
      invariant |activities| == |start| + i
      invariant activities[..|start|] == start
      invariant forall k :: 0 <= k < i ==> activities[|start| + k] == NewEventItem(rows[k])
    {
      activities := activities + [NewEventItem(rows[i])];
    }
    MapAppended(activities, start, rows, NewEventItem);
  }

  /** Every built item carries the tag of the query it came from, in query order. */
  lemma BuiltKinds(checkIns: Option<seq<CheckInRow>>, members: Option<seq<NewMemberRow>>, events: Option<seq<NewEventRow>>)
    ensures |Built(checkIns, members, events)| == |Rows(checkIns)| + |Rows(members)| + |Rows(events)|
    ensures forall k :: 0 <= k < |Built(checkIns, members, events)| ==>
      Built(checkIns, members, events)[k].kind ==
        (if k < |Rows(checkIns)| then AttendanceActivity
         else if k < |Rows(checkIns)| + |Rows(members)| then MemberActivity
         else EventActivity)
  {
    var A, B, C := Map(Rows(checkIns), CheckInItem), Map(Rows(members), NewMemberItem), Map(Rows(events), NewEventItem);
    var b := Built(checkIns, members, events);
    assert b == A + B + C;
    forall k | 0 <= k < |b|
      ensures b[k].kind == (if k < |A| then AttendanceActivity else if k < |A| + |B| then MemberActivity else EventActivity)
    {
      if k < |A| {
        assert b[k] == A[k];
      } else if k < |A| + |B| {
        assert b[k] == B[k - |A|];
      } else {
        assert b[k] == C[k - |A| - |B|];
      }
    }
  }

  /** Exchanges two elements of the array. */
  method Swap(a: array<Activity>, i: nat, j: nat)
    requires i < a.Length && j < a.Length
    modifies a
    ensures a[i] == old(a[j]) && a[j] == old(a[i])
    ensures forall k :: 0 <= k < a.Length && k != i && k != j ==> a[k] == old(a[k])
    ensures multiset(a[..]) == old(multiset(a[..]))
  {
    a[i], a[j] := a[j], a[i];
  }

  /**
   * `activities.sort((a, b) => b.timestamp - a.timestamp)`: sorts in place,
   * newest first; each element moves down past the older ones before it.
   */
  method SortNewestFirst(a: array<Activity>)
    modifies a
    ensures NewestFirst(a[..])
    ensures multiset(a[..]) == old(multiset(a[..]))
  {
    if a.Length == 0 {
      return;
    }
    var i := 1;
    while i < a.Length
      invariant 1 <= i <= a.Length
      invariant NewestFirst(a[..i])
      invariant multiset(a[..]) == old(multiset(a[..]))
    {
      InsertNewest(a, i);
      i := i + 1;
    }
  }

  /**
   * One pass of the sort: the element at `i` moves down past the older ones
   * before it, so the first `i + 1` elements are newest first.
   */
  method InsertNewest(a: array<Activity>, i: nat)
    requires i < a.Length
    requires NewestFirst(a[..i])
    modifies a
    ensures NewestFirst(a[..i + 1])
    ensures multiset(a[..]) == old(multiset(a[..]))
  {
    var j := i;
    while j > 0 && a[j - 1].timestamp < a[j].timestamp
      invariant 0 <= j <= i
      invariant forall p, q :: 0 <= p < q <= i && q != j ==> a[p].timestamp >= a[q].timestamp
      invariant forall p, q :: 0 <= p < j < q <= i ==> a[p].timestamp >= a[q].timestamp
      invariant multiset(a[..]) == old(multiset(a[..]))
    {
      Swap(a, j - 1, j);
      j := j - 1;
    }
  }

  function Min(x: int, y: int): int {
    if x <= y then x else y
  }

  /**
   * `fetchRecentActivity` after the three queries: build, sort newest first,
   * keep the first ten. The result is the newest part of a reordering of the
   * built list: nothing dropped is newer than anything kept.
   */
  method FetchRecentActivity(checkIns: Option<seq<CheckInRow>>, members: Option<seq<NewMemberRow>>, events: Option<seq<NewEventRow>>)
    returns (feed: seq<Activity>)
    ensures |feed| == Min(FeedLength, |Built(checkIns, members, events)|)
    ensures NewestFirst(feed)
    ensures multiset(feed) <= multiset(Built(checkIns, members, events))
    ensures forall x, y :: x in multiset(Built(checkIns, members, events)) - multiset(feed) && y in feed ==>
      x.timestamp <= y.timestamp
    ensures |Built(checkIns, members, events)| <= FeedLength ==> multiset(feed) == multiset(Built(checkIns, members, events))
  {
    var activities := BuildActivities(checkIns, members, events);
    var a := new Activity[|activities|](i requires 0 <= i < |activities| => activities[i]);
    assert a[..] == activities;
    SortNewestFirst(a);
    var n := Min(FeedLength, a.Length);
    feed := a[..n];
    TopOfSorted(a[..], n);
    if n == a.Length {
      assert feed == a[..];
    }
  }

  /** The first `n` items of a newest-first list are newest first, and nothing after them is newer. */
  lemma TopOfSorted(sorted: seq<Activity>, n: nat)
    requires NewestFirst(sorted) && n <= |sorted|
    ensures NewestFirst(sorted[..n])
    ensures multiset(sorted[..n]) <= multiset(sorted)
    ensures forall x, y :: x in multiset(sorted) - multiset(sorted[..n]) && y in sorted[..n] ==> x.timestamp <= y.timestamp
  {
    SplitMultiset(sorted, n);
    RestNotNewer(sorted, n);
    forall x: Activity, y: Activity | x in multiset(sorted) - multiset(sorted[..n]) && y in sorted[..n]
      ensures x.timestamp <= y.timestamp
    {
      assert x in sorted[n..];
    }
  }

  /** In a newest-first list, nothing after position `n` is newer than anything before it. */
  lemma RestNotNewer(sorted: seq<Activity>, n: nat)
    requires NewestFirst(sorted) && n <= |sorted|
    ensures forall x, y :: x in sorted[n..] && y in sorted[..n] ==> x.timestamp <= y.timestamp
  {
    forall x, y | x in sorted[n..] && y in sorted[..n]
      ensures x.timestamp <= y.timestamp
    {
      var q :| 0 <= q < |sorted| - n && sorted[n..][q] == x;
      var p :| 0 <= p < n && sorted[..n][p] == y;
      assert sorted[p] == y && sorted[n + q] == x;
    }
  }

  /** Cutting a list in two splits its multiset in two. */
  lemma SplitMultiset(s: seq<Activity>, n: nat)
    requires n <= |s|
    ensures multiset(s) - multiset(s[..n]) == multiset(s[n..])
    ensures multiset(s[..n]) <= multiset(s)
  {
    assert s == s[..n] + s[n..];
  }

  /** With the query limits 5, 3 and 2 the built list fits the feed, so nothing is cut. */
  lemma QueryLimitsFitFeed(checkIns: Option<seq<CheckInRow>>, members: Option<seq<NewMemberRow>>, events: Option<seq<NewEventRow>>)
    requires |Rows(checkIns)| <= CheckInLimit && |Rows(members)| <= NewMemberLimit && |Rows(events)| <= NewEventLimit
    ensures |Built(checkIns, members, events)| <= FeedLength
  {
  }
}
