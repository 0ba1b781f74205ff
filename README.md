# Campus fellowship attendance: a verified Dafny model

This project models the attendance part of a church-management web application
used by a campus fellowship. Students scan an event's QR code and fill in a
check-in form. The page validates the form, finds the event by its token,
inserts or updates the member by phone number, and records a digital
attendance. Administrators see a member directory with search and status
filters, member statistics, a recent-activity feed and an events list where
events are switched on and off. The QR panel builds the check-in link and the
name of the downloaded image.

The model has these modules:

- `Schema`: the rows of `members`, `events` and `attendance`, and the
  visitor-status and attendance-method enumerations.
- `Phone`: `formatPhoneNumber`, which normalises a Nigerian number to `+234…`.
- `AttendanceForm`: the form data, `validateForm` (an imperative method that
  builds the error map field by field), the phone pattern, `parseInt(value) || 0`
  and `handleChange`.
- `CheckIn`: `handleSubmit` as a function of an abstract backend store
  (`SubmitResult`), and a class `AttendanceBackend` whose method
  `HandleSubmit` performs the same decision sequence in place and is proved
  equal to it.
- `MembersList` and `MembersStats`: the three-week follow-up rule, the member
  filters, the status label and colour, and the statistics cards.
- `RecentActivity`: the three `forEach` loops that build the feed, an in-place
  newest-first sort on an array, and the first ten items.
- `EventsList`: the active/inactive toggle and its two labels.
- `QrCode`: the check-in URL, how the check-in page reads the token back, and
  the whitespace-to-underscore file name.
- `Wrappers`, `Ascii`, `Seqs`: an `Option` type, ASCII character classes and
  string tests, and order-preserving `filter`/`map` over sequences.

Dates and timestamps are integers (seconds). Each operation that reads the
clock gets one `now` parameter. The browser origin is a parameter. Backend
reads are given as inputs (`Option` where the source treats a missing result
as empty). Backend writes either succeed or fail, as chosen by a
`WriteResults` parameter. Row identifiers are natural numbers, and the store
hands them out from a counter.

The check-in form keeps the phone number exactly as typed. `handleSubmit`
looks members up by that raw text, and `formatPhoneNumber` is never applied.
`CheckIn.TwoSpellingsTwoMembers` proves what follows from this: `0803…` and
`+234803…` both pass the phone pattern and normalise to the same international
number, yet they are different lookup keys. `CheckIn.SecondSpellingInsertsSecondMember`
proves the consequence: a member filed under `0803…` who checks in again as
`+234803…` is not found, and a second member is inserted under a new identifier.

## Model

| member | source | states |
|---|---|---|
| Schema.ParseVisitorStatus | lib/database.types.ts:21 | a text is accepted exactly when it is one of the three column labels, and parsing gives back the value whose label it is |
| Phone.Cleaned | lib/utils.ts:10 | removing non-digits leaves only digits and never lengthens the text |
| Phone.CleanedDistributes | lib/utils.ts:10 | removing non-digits from a concatenation gives the two cleaned parts concatenated |
| Phone.CleanedKeepsDigits | lib/utils.ts:10 | an all-digit text is unchanged by cleaning |
| Phone.CleanedDropsNonDigits | lib/utils.ts:10 | a text with no digit cleans to the empty text |
| Phone.FormatPhoneNumber | lib/utils.ts:8-22 | when no rule applies, the input is returned unchanged; otherwise the result is `+234` followed by digits only |
| Phone.FormatIdempotent | lib/utils.ts:8-22 | formatting an already formatted number changes nothing |
| Phone.NationalSpellingsAgree | lib/utils.ts:13-19 | for a ten-digit mobile number, the spellings with `0`, `+234`, `234` or no prefix all give `+234` and the ten digits |
| Phone.CountryCodeRuleFirst | lib/utils.ts:13-14 | a ten-digit text starting with `234` takes the country-code rule (`+` prepended, 11 characters), not the ten-digit rule |
| Phone.TrunkSpelling | lib/utils.ts:15-16 | a trunk `0` in front of ten digits is replaced by `+234` |
| Phone.CountryCodeSpellings | lib/utils.ts:13-14 | the country code with or without `+` in front of ten digits gives `+234` and the ten digits |
| Phone.BareSpelling | lib/utils.ts:17-18 | ten digits starting with 7, 8 or 9 gain `+234` |
| Phone.CountryCodeRule | lib/utils.ts:13-14 | whatever else the text holds, when its digits begin with 234 the result is `+` and the digits |
| Phone.TrunkRule | lib/utils.ts:15-16 | whatever else the text holds, digits that begin with `0` (and not with 234) lose the `0` and gain `+234` |
| Phone.TenDigitRule | lib/utils.ts:17-18 | whatever else the text holds, exactly ten digits beginning with neither 234 nor `0` gain `+234` |
| Phone.CleanedAfterPlus | lib/utils.ts:10 | a leading `+` is dropped by cleaning and the digits after it are kept |
| AttendanceForm.MatchesPhonePattern | app/attend/components/AttendanceForm.tsx:60-61 | read from the end, a number is accepted exactly when its last ten characters are a mobile prefix and nine digits and what comes before them is `0` or `+234` |
| AttendanceForm.PhonePatternShape | app/attend/components/AttendanceForm.tsx:60-63 | an accepted phone is 11 characters starting with `0` or 14 starting with `+234`, and ends with a ten-digit mobile number |
| AttendanceForm.AcceptedPhoneFormatsToInternational | app/attend/components/AttendanceForm.tsx:60-63 | every number the pattern accepts normalises to `+234` and its last ten digits, 14 characters long |
| AttendanceForm.AcceptedPhoneIsNationalSpelling | app/attend/components/AttendanceForm.tsx:60-63 | an accepted phone is `0` or `+234` written in front of a ten-digit mobile number |
| AttendanceForm.ErrorsDetermined | app/attend/components/AttendanceForm.tsx:49-87 | an error map with exactly the failing fields and their messages is the form's error map, and it is empty exactly when every rule passes |
| AttendanceForm.ValidateForm | app/attend/components/AttendanceForm.tsx:49-87 | valid exactly when the name has at least 2 characters, the age is 16 to 35, the phone matches the pattern, the four selections are non-empty and consent is given; a field has an error exactly when its rule fails, with that field's message |
| AttendanceForm.CheckDetails | app/attend/components/AttendanceForm.tsx:52-67 | after the name, age, phone and course checks, the map holds exactly those of the four rules that fail, with their messages |
| AttendanceForm.CheckSelections | app/attend/components/AttendanceForm.tsx:69-83 | after the level, hall, status and consent checks, the map holds exactly the failing rules of all eight fields |
| AttendanceForm.AddErrorIf | app/attend/components/AttendanceForm.tsx:52-83 | a failing check adds its field with its message, a passing check leaves the map as it was, and one more field is accounted for |
| AttendanceForm.RecordedAll | app/attend/components/AttendanceForm.tsx:85-86 | once all eight fields are checked, the map is empty exactly when the form is valid |
| AttendanceForm.ErrorsEmptyIffValid | app/attend/components/AttendanceForm.tsx:86 | an error map holding exactly the failing rules is empty exactly when every rule passes |
| AttendanceForm.ParseIntOrZero | app/attend/components/AttendanceForm.tsx:190 | a text without any digit reads as 0, and a negative value comes only from a leading `-` after the whitespace |
| AttendanceForm.NoLeadingDigitReadsZero | app/attend/components/AttendanceForm.tsx:190 | when no digit follows the whitespace and the optional sign, parsing fails and the input reads as 0 |
| AttendanceForm.FractionOnlyReadsZero | app/attend/components/AttendanceForm.tsx:190 | `.5` and `-.5` read as 0 |
| AttendanceForm.DecimalRoundTrip | app/attend/components/AttendanceForm.tsx:190 | reading the decimal digits of a number gives the number back |
| AttendanceForm.LeadingDigitsStop | app/attend/components/AttendanceForm.tsx:190 | parsing stops at the first character that is not a digit |
| AttendanceForm.ParseIntRoundTrip | app/attend/components/AttendanceForm.tsx:190 | `parseInt` gives back a written number, its negative after `-`, and ignores a fractional part |
| AttendanceForm.ParseDigits | app/attend/components/AttendanceForm.tsx:190 | a digit string alone reads as its value |
| AttendanceForm.ParseNegativeDigits | app/attend/components/AttendanceForm.tsx:190 | a minus sign and a digit string read as the negated value |
| AttendanceForm.ParseWithFraction | app/attend/components/AttendanceForm.tsx:190 | a fractional part after the digits is ignored |
| AttendanceForm.ParseUnsigned | app/attend/components/AttendanceForm.tsx:190 | digits followed by a non-digit tail parse as the value of the digits |
| AttendanceForm.ParseNegative | app/attend/components/AttendanceForm.tsx:190 | a minus sign and digits followed by a non-digit tail parse as the negated value |
| AttendanceForm.HandleChange | app/attend/components/AttendanceForm.tsx:185-192 | the named field takes the checkbox state, the parsed number or the text, as the input type says; every other field keeps its value |
| AttendanceForm.ClearedAgeIsRejected | app/attend/components/AttendanceForm.tsx:190 | clearing the age box sets the age to 0, which validation rejects with the age message |
| CheckIn.ResolveEvent | app/attend/components/AttendanceForm.tsx:99-113 | no lookup without a non-empty token; otherwise the event is found exactly when an active event has the token, and its id is returned |
| CheckIn.SubmitResult | app/attend/components/AttendanceForm.tsx:89-183 | a submission never changes the events and adds at most one attendance row |
| CheckIn.RecordCheckIn | app/attend/components/AttendanceForm.tsx:115-168 | the member and attendance writes never change the events and add at most one attendance row |
| CheckIn.NewMember | app/attend/components/AttendanceForm.tsx:125-136 | the inserted row has the new id, the typed name, age, phone, course, level, hall and consent and the chosen status; it is active, has no attendance date, and is created and updated at `now` |
| CheckIn.UpdatedMember | app/attend/components/AttendanceForm.tsx:144-155 | the updated row has the typed name, age, course, level and hall, the chosen status and `updated_at` = `now`; id, phone, consent, activity flag, last attendance and creation time are kept |
| CheckIn.RecordAttendance | app/attend/components/AttendanceForm.tsx:159-168 | with a resolved event and a successful insert, one digital row for that member and event, under the next id and at `now`, is appended; otherwise nothing changes; members and events are never touched |
| CheckIn.AbortsWriteNothing | app/attend/components/AttendanceForm.tsx:92-113 | an invalid form is rejected with a non-empty error map, and an unknown or inactive event is refused, both leaving the store unchanged |
| CheckIn.KnownMemberUpdated | app/attend/components/AttendanceForm.tsx:143-157 | a known phone number adds no member and records the check-in under that member's id; on a successful update the row takes the typed name, age, course, level and hall, the typed status and `updated_at` = `now`, and keeps id, phone, consent, activity flag, last attendance and creation time; on a failed update the row is unchanged |
| CheckIn.NewMemberInserted | app/attend/components/AttendanceForm.tsx:124-142 | an unknown phone number adds exactly one member, under an id no other member has, whose row holds the typed name, age, phone, course, level, hall, status and consent, active, with no attendance date and created and updated at `now`; or the submission fails and nothing changes |
| CheckIn.OtherMembersUntouched | app/attend/components/AttendanceForm.tsx:115-157 | members filed under other phone numbers are unchanged |
| CheckIn.AttendanceOnlyForResolvedEvent | app/attend/components/AttendanceForm.tsx:159-168 | an attendance row is added exactly when the check-in succeeds with a resolved event and the insert succeeds; the row is digital, for that member and that event |
| CheckIn.SubmitKeepsStoreValid | app/attend/components/AttendanceForm.tsx:115-168 | members stay filed under their own phone numbers, no two members share an identifier, and every identifier stays below the next fresh one |
| CheckIn.RecordCheckInKeepsStoreValid | app/attend/components/AttendanceForm.tsx:115-168 | the member update or insert and the attendance insert keep the store invariant |
| CheckIn.RecordAttendanceKeepsStoreValid | app/attend/components/AttendanceForm.tsx:159-168 | appending a digital attendance row under the next identifier keeps the store invariant |
| CheckIn.TwoSpellingsTwoMembers | app/attend/components/AttendanceForm.tsx:115-120 | two accepted spellings of one number normalise alike but are different lookup keys |
| CheckIn.SecondSpellingInsertsSecondMember | app/attend/components/AttendanceForm.tsx:115-137 | a member filed under the `0` spelling who submits the `+234` spelling of the same number gets a second member row, with a different id, while the first row stays unchanged |
| CheckIn.AttendanceBackend.HandleSubmit | app/attend/components/AttendanceForm.tsx:89-183 | the store after the in-place submission, and the outcome, are those of `SubmitResult`; the store invariant is kept |
| CheckIn.AttendanceBackend.RecordMember | app/attend/components/AttendanceForm.tsx:115-168 | the in-place member and attendance writes give the store and outcome of `RecordCheckIn` |
| MembersList.AttendedRecently | app/admin/members/components/MembersList.tsx:67-75 | active exactly when a last attendance date exists and lies at most 21 days before `now` |
| MembersList.NeedsFollowUp | app/admin/members/components/MembersList.tsx:76-80 | due a follow-up when there is no attendance date, or exactly when it lies more than 21 days before `now` |
| MembersList.MatchesSearch | app/admin/members/components/MembersList.tsx:57-63 | a member matches when the raw term occurs in the phone number, or the lower-cased term in the lower-cased name, course or hall; the empty term matches every member |
| MembersList.NoFieldContainsTerm | app/admin/members/components/MembersList.tsx:57-63 | a member none of whose four searched fields contains the term is not matched |
| MembersList.PassesStatus | app/admin/members/components/MembersList.tsx:66-85 | 'active' keeps exactly the recent attenders and 'inactive' exactly the others, 'first-timer' exactly the first-timers, and any other value keeps everyone |
| MembersList.ActiveOrFollowUp | app/admin/members/components/MembersList.tsx:71-80 | every member is exactly one of: attended within three weeks, or due a follow-up |
| MembersList.EmptySearchMatchesAll | app/admin/members/components/MembersList.tsx:57-63 | an empty search term matches every member |
| MembersList.Filtered | app/admin/members/components/MembersList.tsx:53-89 | the shown list keeps the fetched order, and a member is in it exactly when it matches the search and the status filter; a shown row appears as many times as it was fetched |
| MembersList.FilterMembers | app/admin/members/components/MembersList.tsx:53-89 | searching first, then filtering by status, gives the list of members that pass both tests |
| MembersList.NoFiltersShowEveryone | app/admin/members/components/MembersList.tsx:53-89 | with no search term and the 'all' filter every member is shown, in order |
| MembersList.ActiveInactivePartition | app/admin/members/components/MembersList.tsx:66-85 | for one search, the 'active' and 'inactive' lists together are the 'all' list, counted with multiplicity |
| MembersList.StatusText | app/admin/members/components/MembersList.tsx:106-117 | "Never attended" exactly without a date, "Active" exactly when attended within three weeks, "Needs follow-up" exactly when the date is older |
| MembersList.StatusColor | app/admin/members/components/MembersList.tsx:91-104 | grey, green and orange exactly when the label reads "Never attended", "Active" and "Needs follow-up" |
| MembersList.ActiveFilterMatchesLabel | app/admin/members/components/MembersList.tsx:71-75 | a member is in the 'active' list exactly when it is shown under 'all' and its label reads "Active" |
| MembersStats.CountNeedingFollowUp | app/admin/members/components/MembersStats.tsx:56-59 | a missing result counts 0; otherwise the count is at most the number of rows |
| MembersStats.FetchStats | app/admin/members/components/MembersStats.tsx:61-65 | a missing count becomes 0, a present count is shown as is, and the follow-up card shows the number of rows due a follow-up (0 when the read returned nothing) |
| MembersStats.LastDates | app/admin/members/components/MembersStats.tsx:51-54 | one entry per member row, in order, each that row's `last_attendance_date` |
| MembersStats.FollowUpCountMatchesInactiveFilter | app/admin/members/components/MembersStats.tsx:56-59 | on the same rows, the follow-up card counts exactly the members the directory's 'inactive' filter lists |
| RecentActivity.CheckInItem | app/admin/components/RecentActivity.tsx:56-62 | a check-in item has the check-in's id and time and the attendance tag |
| RecentActivity.CheckInDescription | app/admin/components/RecentActivity.tsx:59 | a check-in's text is the member's name, then ` checked in to `, then the event's name, and has exactly their total length; a missing name reads "undefined" |
| RecentActivity.NewMemberItem | app/admin/components/RecentActivity.tsx:67-73 | a new-member item has the member's id and creation time and the member tag; its text is `New member ` and ` joined` around the name, which can be read back |
| RecentActivity.NewEventItem | app/admin/components/RecentActivity.tsx:78-84 | a new-event item has the event's id and creation time and the event tag; its text is `Event "` and `" was created` around the name, which can be read back |
| RecentActivity.BuildActivities | app/admin/components/RecentActivity.tsx:52-85 | the list is the check-in items, then the new-member items, then the new-event items, each in fetched order; a missing result adds nothing |
| RecentActivity.PushCheckIns | app/admin/components/RecentActivity.tsx:55-63 | the loop appends one check-in item per row, in order |
| RecentActivity.PushNewMembers | app/admin/components/RecentActivity.tsx:66-74 | the loop appends one new-member item per row, in order |
| RecentActivity.PushNewEvents | app/admin/components/RecentActivity.tsx:77-85 | the loop appends one new-event item per row, in order |
| RecentActivity.BuiltKinds | app/admin/components/RecentActivity.tsx:52-85 | the built list has one item per fetched row, and each item is tagged with the query it came from |
| RecentActivity.SortNewestFirst | app/admin/components/RecentActivity.tsx:88 | after the in-place sort, timestamps never increase along the array, and the array holds the same items |
| RecentActivity.InsertNewest | app/admin/components/RecentActivity.tsx:88 | one pass moves the next item down past the older ones, so one more prefix item is newest first; the array holds the same items |
| RecentActivity.FetchRecentActivity | app/admin/components/RecentActivity.tsx:86-89 | the feed has min(10, n) items, newest first, taken from the built list; no dropped item is newer than a kept one; with at most ten items nothing is dropped |
| RecentActivity.TopOfSorted | app/admin/components/RecentActivity.tsx:89 | the first n items of a newest-first list are newest first, and nothing after them is newer |
| RecentActivity.RestNotNewer | app/admin/components/RecentActivity.tsx:89 | in a newest-first list nothing after the cut is newer than anything before it |
| RecentActivity.QueryLimitsFitFeed | app/admin/components/RecentActivity.tsx:36-50 | with the query limits 5, 3 and 2, the built list fits the ten-item feed |
| EventsList.ToggledEntry | app/admin/events/components/EventsList.tsx:56-60 | the entry with the toggled id gets the flag `!currentStatus`, every other field kept; any other entry is unchanged |
| EventsList.ToggleEventStatus | app/admin/events/components/EventsList.tsx:47-64 | on a backend error the list is unchanged; otherwise entries with the id get the flag `!currentStatus`; length, order and every other field are kept |
| EventsList.UnknownIdUnchanged | app/admin/events/components/EventsList.tsx:56-60 | a toggle for an id no event has leaves the list unchanged |
| EventsList.ToggleTwiceRestores | app/admin/events/components/EventsList.tsx:47-60 | toggling twice, each time passing the flag shown, restores the original list |
| EventsList.BadgeText | app/admin/events/components/EventsList.tsx:123 | the badge reads "Active" exactly when the event is active, else "Inactive" |
| EventsList.ToggleButtonTitle | app/admin/events/components/EventsList.tsx:165 | the button reads "Deactivate Event" exactly when the badge reads "Active", else "Activate Event" |
| QrCode.AttendanceUrl | app/admin/events/components/QRCodeDisplay.tsx:23 | the link starts with the origin, ends with the token verbatim, and has the origin, the path and the token as its length |
| QrCode.QueryOf | app/attend/components/AttendanceForm.tsx:47 | a link has a query exactly when a `?` comes before the first `#`, and the query never holds a `#` |
| QrCode.FragmentHidesQuery | app/attend/components/AttendanceForm.tsx:47 | a `?event=` inside the fragment gives no token |
| QrCode.ParamValue | app/attend/components/AttendanceForm.tsx:47 | a parameter's value never contains the pair separator `&`, nor a `#` the query does not have |
| QrCode.EventParam | app/attend/components/AttendanceForm.tsx:47 | a link without a query (no `?` before the first `#`) has no `event` parameter, and the token read back contains neither `&` nor `#` |
| QrCode.TokenRoundTrip | app/admin/events/components/QRCodeDisplay.tsx:23 | the check-in page's `event` parameter of the link is the token it was made from |
| QrCode.QueryOfAttendanceUrl | app/admin/events/components/QRCodeDisplay.tsx:23 | the query of a check-in link is `event=` followed by the token |
| QrCode.QuestionMarkAfterPath | app/admin/events/components/QRCodeDisplay.tsx:23 | the first `?` of a check-in link is the one after `/attend` |
| QrCode.EventPairValue | app/admin/events/components/QRCodeDisplay.tsx:23 | the query `event=<token>` gives the token as the value of `event` |
| QrCode.EventPairParts | app/admin/events/components/QRCodeDisplay.tsx:23 | the query `event=<token>` is one pair named `event` |
| QrCode.DistinctTokensDistinctUrls | app/admin/events/components/QRCodeDisplay.tsx:23 | different tokens give different links |
| Ascii.SkipSpaces | app/admin/events/components/QRCodeDisplay.tsx:41 | skipping a whitespace run leaves a text that does not start with whitespace, and is shorter whenever there was a run |
| Ascii.SkipSpacesIsSuffix | app/admin/events/components/QRCodeDisplay.tsx:41 | what is left after skipping is the end of the text |
| QrCode.ReplaceWhitespaceRuns | app/admin/events/components/QRCodeDisplay.tsx:41 | the result has no whitespace and is never longer than the name |
| QrCode.RunBecomesUnderscore | app/admin/events/components/QRCodeDisplay.tsx:41 | a whitespace run between a part not ending in whitespace and a part not starting with it becomes one `_` in that place, each side replaced on its own |
| QrCode.SkipKeepsKept | app/admin/events/components/QRCodeDisplay.tsx:41 | skipping a whitespace run loses no character that is neither whitespace nor `_` |
| QrCode.SkipKeepsUnderscores | app/admin/events/components/QRCodeDisplay.tsx:41 | skipping a whitespace run loses no `_` |
| QrCode.KeptCharactersSurvive | app/admin/events/components/QRCodeDisplay.tsx:41 | every character that is neither whitespace nor `_` survives, in order |
| QrCode.OneUnderscorePerRun | app/admin/events/components/QRCodeDisplay.tsx:41 | the result has one `_` more than the name for each maximal whitespace run |
| QrCode.NoSpaceUnchanged | app/admin/events/components/QRCodeDisplay.tsx:41 | a name without whitespace is unchanged |
| QrCode.ReplaceIdempotent | app/admin/events/components/QRCodeDisplay.tsx:41 | replacing a second time changes nothing |
| QrCode.DownloadFileName | app/admin/events/components/QRCodeDisplay.tsx:41 | the file name is the name with its whitespace runs replaced, then `_QR.png`; the part before the suffix has no whitespace, and a name without whitespace is kept as is |

## Left out

- Authentication, the backend SDK and its network calls: reads are inputs and writes succeed or fail by a parameter.
- The failed member lookup: in the model a stored phone number is always found. In the source a failed `.single()` (a network error, or two rows already holding that phone) leaves no member, and the code then inserts a second member with the same phone; neither the failure nor that duplicate insert is modelled.
- Read failures of the three feed queries: the source treats them as "no data", and so does the model; a network exception is not modelled.
- `generateQRToken` in lib/utils.ts: it depends on `Math.random` and base-36 float printing; tokens are arbitrary strings.
- The dashboard statistics growth percentages, the attendance chart, the inactive-members widget, the event creation form, the login form and the form builder, prayer, broadcast and logistics pages: they are not part of this model.
- Rendering, icons, loading states, clipboard, `window.open`, redirects with `setTimeout`, alerts and the QR canvas: presentation and browser effects.
- Calendar arithmetic: `setDate(getDate() - 21)` is taken as exactly 21 × 86400 seconds, so daylight-saving shifts are not modelled; date strings are already parsed, and an invalid date string is not modelled.
- Unicode: `\s`, `\d` and `toLowerCase` are modelled on ASCII only.
- AttendanceForm.ValidateForm: the name-length rule counts characters, while JavaScript's `length` counts UTF-16 code units, so a name of one character outside the Basic Multilingual Plane (an emoji) passes the rule in the browser but fails it in the model.
- `parseInt` with a `0x` prefix, and the `Infinity`/`NaN` corner cases: a number input never produces them.
- The `members` count queries (`totalMembers`, `newThisWeek`): their counts are inputs; the seven-day window and the `is_active` filter are done by the backend.
- Database defaults and constraints: the insert is assumed to set `is_active` to true, no attendance date, and both timestamps to `now`; no uniqueness of phone numbers or attendances is assumed beyond the lookup key; `last_attendance_date` is never written by the code shown.
- Percent-decoding and `+` in the query string: `QrCode.TokenRoundTrip` requires a token of letters and digits, for which decoding changes nothing.
- RecentActivity.SortNewestFirst: the order among items with equal timestamps is not stated, although the browser's sort is stable.
- RecentActivity.FetchRecentActivity: the activity `icon` field is left out, as presentation.
- EventsList.ToggleEventStatus: the React state update is modelled as a function from the previous list to the next one.
- MembersStats.CountNeedingFollowUp: the `|| 0` for a missing result is modelled; the number of rows is a bound, and the exact count is stated by `MembersStats.FollowUpCountMatchesInactiveFilter`.
