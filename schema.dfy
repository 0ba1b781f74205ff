/**
 * The rows and enumerations of the database schema that the check-in and
 * administration components read and write. Identifiers generated by the
 * database are natural numbers; dates and timestamps are integers (seconds).
 */
module Schema {
  import opened Wrappers

  /** A database-generated row identifier. */
  type Uuid = nat

  /** The `visitor_status` column: 'First-Timer' | 'Regular Member' | 'Returning Guest'. */
  datatype VisitorStatus = FirstTimer | RegularMember | ReturningGuest

  /** The `attendance_method` column: 'digital' | 'manual'. */
  datatype AttendanceMethod = Digital | Manual

  /** The text the database stores for a visitor status. */
  function VisitorStatusLabel(v: VisitorStatus): string {
    match v
    case FirstTimer => "First-Timer"
    case RegularMember => "Regular Member"
    case ReturningGuest => "Returning Guest"
  }

  /** The enumeration value a text denotes; the column refuses any other text. */
  function ParseVisitorStatus(s: string): (r: Option<VisitorStatus>)
    ensures r.Some? ==> VisitorStatusLabel(r.value) == s
    ensures forall v :: s == VisitorStatusLabel(v) ==> r == Some(v)
  {
    if s == "First-Timer" then Some(FirstTimer)
    else if s == "Regular Member" then Some(RegularMember)
    else if s == "Returning Guest" then Some(ReturningGuest)
    else None
  }

  /** A row of `members`. */
  datatype MemberRow = MemberRow(
    id: Uuid,
    fullName: string,
    age: int,
    phoneNumber: string,
    courseOfStudy: string,
    level: string,
    hallHostel: string,
    visitorStatus: VisitorStatus,
    dataConsent: bool,
    isActive: bool,
    lastAttendanceDate: Option<int>,
    createdAt: int,
    updatedAt: int)

  /** A row of `events`. */
  datatype EventRow = EventRow(
    id: Uuid,
    eventName: string,
    eventType: string,
    eventDate: int,
    eventTime: string,
    description: Option<string>,
    qrCodeToken: string,
    isActive: bool,
    manualHeadcount: int,
    createdBy: Option<Uuid>,
    createdAt: int,
    updatedAt: int)

  /** A row of `attendance`. */
  datatype AttendanceRow = AttendanceRow(
    id: Uuid,
    memberId: Uuid,
    eventId: Uuid,
    attendanceMethod: AttendanceMethod,
    checkedInAt: int)
}
