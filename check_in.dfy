/**
 * The check-in submission: validate the form, resolve the event token, find
 * the member by phone number, update or insert the member, and record the
 * attendance when an event was resolved. The backend is an abstract store.
 */
module CheckIn {
  import opened Wrappers
  import opened Schema
  import opened AttendanceForm
  import Phone

  /** What the `events` table answers about a QR token: the event's id and whether it is active. */
  datatype EventEntry = EventEntry(id: Uuid, isActive: bool)

  /**
   * The backend as the check-in sees it: events by `qr_code_token`, members by
   * `phone_number`, the `attendance` rows in insertion order, and the next
   * identifier the database will hand out.
   */
  datatype Store = Store(
    events: map<string, EventEntry>,
    members: map<string, MemberRow>,
    attendance: seq<AttendanceRow>,
    nextId: Uuid)

  /** Every member is filed under its own phone number, no two members share an identifier, and every identifier in use was handed out already. */
  predicate StoreValid(s: Store) {
    && (forall p :: p in s.members ==> s.members[p].phoneNumber == p && s.members[p].id < s.nextId)
    && (forall p, q :: p in s.members && q in s.members && p != q ==> s.members[p].id != s.members[q].id)
    && (forall k :: 0 <= k < |s.attendance| ==> s.attendance[k].id < s.nextId)
  }

  /** Whether each of the three writes succeeds at the backend. */
  datatype WriteResults = WriteResults(memberInsert: bool, memberUpdate: bool, attendanceInsert: bool)

  datatype SubmitOutcome =
    | Rejected(errors: map<Field, string>)       // validation failed; nothing was sent
    | InvalidEvent                               // "Invalid or inactive event"
    | MemberInsertFailed                         // the insert's error was thrown
    | Recorded(memberId: Uuid, eventId: Option<Uuid>)   // success shown to the user

  /** The result of looking up the page's `event` parameter. */
  datatype EventLookup = NoToken | Found(id: Uuid) | NotFound

  /**
   * An absent or empty token skips the lookup; otherwise the token must name an
   * active event.
   */
  function ResolveEvent(events: map<string, EventEntry>, token: Option<string>): (r: EventLookup)
    ensures r.NoToken? <==> token.None? || token.value == ""
    ensures r.Found? <==> token.Some? && token.value != "" && token.value in events && events[token.value].isActive
    ensures r.Found? ==> r.id == events[token.value].id
  {
    if token.None? || token.value == "" then NoToken
    else if token.value in events && events[token.value].isActive then Found(events[token.value].id)
    else NotFound
  }

  /** The personal details a check-in writes: those typed into the form, with the status it names. */
  predicate SameDetails(m: MemberRow, form: FormData, status: VisitorStatus) {
    && m.fullName == form.fullName && m.age == form.age
    && m.courseOfStudy == form.courseOfStudy && m.level == form.level && m.hallHostel == form.hallHostel
    && m.visitorStatus == status
  }

  /** The row inserted for a new member (the database fills `is_active`, `last_attendance_date` and the timestamps). */
  function NewMember(id: Uuid, form: FormData, status: VisitorStatus, now: int): (m: MemberRow)
    ensures m.id == id && m.phoneNumber == form.phoneNumber && m.dataConsent == form.dataConsent
    ensures SameDetails(m, form, status)
    ensures m.isActive && m.lastAttendanceDate.None? && m.createdAt == now && m.updatedAt == now
  {
    MemberRow(id, form.fullName, form.age, form.phoneNumber, form.courseOfStudy, form.level,
              form.hallHostel, status, form.dataConsent, true, None, now, now)
  }

  /** The update applied to a known member: the personal details and `updated_at`. */
  function UpdatedMember(m: MemberRow, form: FormData, status: VisitorStatus, now: int): (u: MemberRow)
    ensures SameDetails(u, form, status) && u.updatedAt == now
    ensures u.id == m.id && u.phoneNumber == m.phoneNumber && u.dataConsent == m.dataConsent
    ensures u.isActive == m.isActive && u.lastAttendanceDate == m.lastAttendanceDate && u.createdAt == m.createdAt
  {
    m.(fullName := form.fullName, age := form.age, courseOfStudy := form.courseOfStudy,
       level := form.level, hallHostel := form.hallHostel, visitorStatus := status, updatedAt := now)
  }

  /** Adds the attendance row of a digital check-in when an event was resolved and the insert succeeds. */
  function RecordAttendance(s: Store, memberId: Uuid, eventId: Option<Uuid>, now: int, writes: WriteResults): (r: Store)
    ensures r.events == s.events && r.members == s.members
    ensures |s.attendance| <= |r.attendance| && r.attendance[..|s.attendance|] == s.attendance
    ensures !(eventId.Some? && writes.attendanceInsert) ==> r == s
    ensures eventId.Some? && writes.attendanceInsert ==>
      && |r.attendance| == |s.attendance| + 1 && r.nextId == s.nextId + 1
      && r.attendance[|s.attendance|] == AttendanceRow(s.nextId, memberId, eventId.value, Digital, now)
  {
    if eventId.Some? && writes.attendanceInsert then
      s.(attendance := s.attendance + [AttendanceRow(s.nextId, memberId, eventId.value, Digital, now)],
         nextId := s.nextId + 1)
    else s
  }

  /**
   * `handleSubmit` as a function of the store: the new store and what the user
   * is told. The visitor-status column accepts only its three labels; any other
   * text makes the member insert or update fail at the backend.
   */
  function SubmitResult(s: Store, form: FormData, token: Option<string>, now: int, writes: WriteResults): (r: (Store, SubmitOutcome))
    ensures r.0.events == s.events
    ensures |s.attendance| <= |r.0.attendance| <= |s.attendance| + 1
  {
    if !FormValid(form) then (s, Rejected(FormErrors(form)))
    else
      match ResolveEvent(s.events, token)
      case NotFound => (s, InvalidEvent)
      case NoToken => RecordCheckIn(s, form, None, now, writes)
      case Found(id) => RecordCheckIn(s, form, Some(id), now, writes)
  }

  /**
   * The part of `handleSubmit` after the event is resolved: update or insert the
   * member by phone number, then record the attendance.
   */
  function RecordCheckIn(s: Store, form: FormData, eventId: Option<Uuid>, now: int, writes: WriteResults): (r: (Store, SubmitOutcome))
    ensures r.0.events == s.events
    ensures |s.attendance| <= |r.0.attendance| <= |s.attendance| + 1
  {
    var status := ParseVisitorStatus(form.visitorStatus);
    if form.phoneNumber in s.members then
      var m := s.members[form.phoneNumber];
      var updated := if writes.memberUpdate && status.Some? then
        s.(members := s.members[form.phoneNumber := UpdatedMember(m, form, status.value, now)])
      else s;
      (RecordAttendance(updated, m.id, eventId, now, writes), Recorded(m.id, eventId))
    else if writes.memberInsert && status.Some? then
      var inserted := s.(members := s.members[form.phoneNumber := NewMember(s.nextId, form, status.value, now)],
                         nextId := s.nextId + 1);
      (RecordAttendance(inserted, s.nextId, eventId, now, writes), Recorded(s.nextId, eventId))
    else (s, MemberInsertFailed)
  }

  /** Validation failure and an unknown or inactive event abort before any write. */
  lemma AbortsWriteNothing(s: Store, form: FormData, token: Option<string>, now: int, writes: WriteResults)
    ensures !FormValid(form) ==> SubmitResult(s, form, token, now, writes) == (s, Rejected(FormErrors(form)))
    ensures !FormValid(form) ==> FormErrors(form) != map[]
    ensures FormValid(form) && ResolveEvent(s.events, token).NotFound? ==>
      SubmitResult(s, form, token, now, writes) == (s, InvalidEvent)
  {
    if !FormValid(form) {
      var f :| f in AllFields && !RuleHolds(form, f);
      assert f in FormErrors(form);
    }
  }

  /**
   * A known member's row takes the typed details, the status and `updated_at`,
   * and keeps its identifier, phone number, consent, activity flag, last
   * attendance and creation time; when the update fails the row is as it was.
   * No member is added, and the check-in is recorded under the member's identifier.
   */
  lemma KnownMemberUpdated(s: Store, form: FormData, token: Option<string>, now: int, writes: WriteResults)
    requires FormValid(form) && !ResolveEvent(s.events, token).NotFound?
    requires form.phoneNumber in s.members
    ensures var r := SubmitResult(s, form, token, now, writes);
      var before := s.members[form.phoneNumber];
      && r.0.members.Keys == s.members.Keys
      && r.1.Recorded? && r.1.memberId == before.id
      && var m := r.0.members[form.phoneNumber];
      if writes.memberUpdate && ParseVisitorStatus(form.visitorStatus).Some? then
        && m.fullName == form.fullName && m.age == form.age
        && m.courseOfStudy == form.courseOfStudy && m.level == form.level && m.hallHostel == form.hallHostel
        && VisitorStatusLabel(m.visitorStatus) == form.visitorStatus
        && m.updatedAt == now
        && m.id == before.id && m.phoneNumber == before.phoneNumber && m.dataConsent == before.dataConsent
        && m.isActive == before.isActive && m.lastAttendanceDate == before.lastAttendanceDate
        && m.createdAt == before.createdAt
      else m == before
  {
  }

  /**
   * An unknown phone number adds exactly one member, under a fresh identifier,
   * whose row holds everything typed into the form, or the submission fails
   * and nothing is written.
   */
  lemma NewMemberInserted(s: Store, form: FormData, token: Option<string>, now: int, writes: WriteResults)
    requires StoreValid(s)
    requires FormValid(form) && !ResolveEvent(s.events, token).NotFound?
    requires form.phoneNumber !in s.members
    ensures var r := SubmitResult(s, form, token, now, writes);
      if writes.memberInsert && ParseVisitorStatus(form.visitorStatus).Some? then
        && r.0.members.Keys == s.members.Keys + {form.phoneNumber}
        && r.1.Recorded? && r.1.memberId == s.nextId
        && (forall p :: p in s.members ==> s.members[p].id != r.1.memberId)
        && var m := r.0.members[form.phoneNumber];
        && m.id == r.1.memberId
        && m.fullName == form.fullName && m.age == form.age && m.phoneNumber == form.phoneNumber
        && m.courseOfStudy == form.courseOfStudy && m.level == form.level && m.hallHostel == form.hallHostel
        && VisitorStatusLabel(m.visitorStatus) == form.visitorStatus
        && m.dataConsent == form.dataConsent
        && m.isActive && m.lastAttendanceDate.None? && m.createdAt == now && m.updatedAt == now
      else r == (s, MemberInsertFailed)
  {
  }

  /** Members under other phone numbers are untouched. */
  lemma OtherMembersUntouched(s: Store, form: FormData, token: Option<string>, now: int, writes: WriteResults, p: string)
    requires p in s.members && p != form.phoneNumber
    ensures var r := SubmitResult(s, form, token, now, writes);
      p in r.0.members && r.0.members[p] == s.members[p]
  {
  }

  /**
   * Attendance only grows, by one digital row for the resolved event and the
   * member just found or inserted, and only when the check-in succeeds with an event.
   */
  lemma AttendanceOnlyForResolvedEvent(s: Store, form: FormData, token: Option<string>, now: int, writes: WriteResults)
    ensures var r := SubmitResult(s, form, token, now, writes);
      && r.0.attendance[..|s.attendance|] == s.attendance
      && (|r.0.attendance| == |s.attendance| + 1 <==> r.1.Recorded? && r.1.eventId.Some? && writes.attendanceInsert)
      && (|r.0.attendance| == |s.attendance| + 1 ==>
            var row := r.0.attendance[|s.attendance|];
            row.attendanceMethod == Digital && row.memberId == r.1.memberId && row.eventId == r.1.eventId.value
            && r.1.eventId == Some(ResolveEvent(s.events, token).id))
  {
  }

  /** Submitting keeps the store's invariant: rows stay filed under their phone numbers and identifiers stay fresh. */
  lemma SubmitKeepsStoreValid(s: Store, form: FormData, token: Option<string>, now: int, writes: WriteResults)
    requires StoreValid(s)
    ensures StoreValid(SubmitResult(s, form, token, now, writes).0)
  {
    if FormValid(form) {
      match ResolveEvent(s.events, token)
      case NotFound =>
      case NoToken => RecordCheckInKeepsStoreValid(s, form, None, now, writes);
      case Found(id) => RecordCheckInKeepsStoreValid(s, form, Some(id), now, writes);
    }
  }

  /** The member write and the attendance write each keep the store's invariant. */
  lemma RecordCheckInKeepsStoreValid(s: Store, form: FormData, eventId: Option<Uuid>, now: int, writes: WriteResults)
    requires StoreValid(s)
    ensures StoreValid(RecordCheckIn(s, form, eventId, now, writes).0)
  {
    var status := ParseVisitorStatus(form.visitorStatus);
    if form.phoneNumber in s.members {
      var m := s.members[form.phoneNumber];
      if writes.memberUpdate && status.Some? {
        var updated := s.(members := s.members[form.phoneNumber := UpdatedMember(m, form, status.value, now)]);
        assert StoreValid(updated);
        RecordAttendanceKeepsStoreValid(updated, m.id, eventId, now, writes);
      } else {
        RecordAttendanceKeepsStoreValid(s, m.id, eventId, now, writes);
      }
    } else if writes.memberInsert && status.Some? {
      var inserted := s.(members := s.members[form.phoneNumber := NewMember(s.nextId, form, status.value, now)],
                         nextId := s.nextId + 1);
      assert StoreValid(inserted);
      RecordAttendanceKeepsStoreValid(inserted, s.nextId, eventId, now, writes);
    }
  }

  /** Appending an attendance row under the next identifier keeps the store's invariant. */
  lemma RecordAttendanceKeepsStoreValid(s: Store, memberId: Uuid, eventId: Option<Uuid>, now: int, writes: WriteResults)
    requires StoreValid(s)
    ensures StoreValid(RecordAttendance(s, memberId, eventId, now, writes))
  {
    if eventId.Some? && writes.attendanceInsert {
      var r := RecordAttendance(s, memberId, eventId, now, writes);
      assert forall k :: 0 <= k < |s.attendance| ==> r.attendance[k] == s.attendance[k];
    }
  }

  /**
   * The pattern lets the same number in through two spellings that format to
   * one international number, yet the lookup compares the raw text: the two
   * spellings are two different members.
   */
  lemma TwoSpellingsTwoMembers(national: string)
    requires SubscriberNumber(national)
    ensures MatchesPhonePattern("0" + national) && MatchesPhonePattern("+234" + national)
    ensures Phone.FormatPhoneNumber("0" + national) == Phone.FormatPhoneNumber("+234" + national)
    ensures "0" + national != "+234" + national
  {
    assert ("0" + national)[1..] == national;
    assert ("+234" + national)[4..] == national;
    assert ("0" + national)[0] != ("+234" + national)[0];
    AcceptedPhoneFormatsToInternational("0" + national);
    AcceptedPhoneFormatsToInternational("+234" + national);
  }

  /**
   * A member who first checked in with the trunk-`0` spelling and now types the
   * `+234` spelling of the same number is not found: a second member is
   * inserted, under a new identifier, and the first row stays as it was.
   */
  lemma SecondSpellingInsertsSecondMember(s: Store, form: FormData, national: string, token: Option<string>, now: int, writes: WriteResults)
    requires StoreValid(s) && SubscriberNumber(national)
    requires "0" + national in s.members && "+234" + national !in s.members
    requires form.phoneNumber == "+234" + national && FormValid(form)
    requires !ResolveEvent(s.events, token).NotFound?
    requires writes.memberInsert && ParseVisitorStatus(form.visitorStatus).Some?
    ensures var r := SubmitResult(s, form, token, now, writes);
      && "0" + national in r.0.members && "+234" + national in r.0.members
      && r.0.members["0" + national] == s.members["0" + national]
      && r.0.members["+234" + national].id != r.0.members["0" + national].id
      && Phone.FormatPhoneNumber("0" + national) == Phone.FormatPhoneNumber("+234" + national)
  {
    TwoSpellingsTwoMembers(national);
    NewMemberInserted(s, form, token, now, writes);
    OtherMembersUntouched(s, form, token, now, writes, "0" + national);
  }

  /** The backend in place, as the check-in page writes to it. */
  class AttendanceBackend {
    var events: map<string, EventEntry>
    var members: map<string, MemberRow>
    var attendance: seq<AttendanceRow>
    var nextId: Uuid

    function State(): Store
      reads this
    {
      Store(events, members, attendance, nextId)
    }

    ghost predicate Valid()
      reads this
    {
      StoreValid(State())
    }

    constructor (events: map<string, EventEntry>)
      ensures Valid()
      ensures State() == Store(events, map[], [], 0)
    {
      this.events := events;
      members := map[];
      attendance := [];
      nextId := 0;
    }

    /** `handleSubmit`: the decision sequence, writing to the store as it goes. */
    method HandleSubmit(form: FormData, eventToken: Option<string>, now: int, writes: WriteResults)
      returns (outcome: SubmitOutcome)
      requires Valid()
      modifies this
      ensures Valid()
      ensures (State(), outcome) == SubmitResult(old(State()), form, eventToken, now, writes)
    {
      var valid, errors := ValidateForm(form);
      if !valid {
        ErrorsDetermined(form, errors);
        return Rejected(errors);
      }
      ErrorsDetermined(form, errors);

      var eventId: Option<Uuid> := None;
      if eventToken.Some? && eventToken.value != "" {
        var token := eventToken.value;
        if token in events && events[token].isActive {
          eventId := Some(events[token].id);
        } else {
          return InvalidEvent;
        }
      }

      outcome := RecordMember(form, eventId, now, writes);
    }

    /** Finds the member by phone number, updates or inserts it, then records the attendance. */
    method RecordMember(form: FormData, eventId: Option<Uuid>, now: int, writes: WriteResults)
      returns (outcome: SubmitOutcome)
      requires Valid()
      modifies this
      ensures Valid()
      ensures (State(), outcome) == RecordCheckIn(old(State()), form, eventId, now, writes)
    {
      var status := ParseVisitorStatus(form.visitorStatus);
      var memberId: Uuid;
      if form.phoneNumber in members {
        memberId := members[form.phoneNumber].id;
        if writes.memberUpdate && status.Some? {
          members := members[form.phoneNumber := UpdatedMember(members[form.phoneNumber], form, status.value, now)];
        }
      } else {
        if !(writes.memberInsert && status.Some?) {
          return MemberInsertFailed;
        }
        memberId := nextId;
        members := members[form.phoneNumber := NewMember(nextId, form, status.value, now)];
        nextId := nextId + 1;
      }

      if eventId.Some? && writes.attendanceInsert {
        attendance := attendance + [AttendanceRow(nextId, memberId, eventId.value, Digital, now)];
        nextId := nextId + 1;
      }
      return Recorded(memberId, eventId);
    }
  }
}
