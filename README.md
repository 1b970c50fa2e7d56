# Club scheduling: a verified model

This is a Dafny model of the scheduling core of a youth football club's web application.

- Staff (educators and administrators) plan training sessions, matches and tournaments for teams.
- Parents say whether each of their children will attend.
- A daily job emails reminders to parents who have not answered.

The application is a Next.js server over a MongoDB database. The model covers:

- **The recurrence generator** in `lib/recurrence.ts` (modules `Calendar` and `Recurrence`). It expands a weekly slot into dates for one month, a season or a rolling six months. Each period is a `while` loop over days, proved against the recursive specification `Sweep`.
- **The client form** that builds a recurrence request (`RecurrenceForm`). This covers the season defaults, the month bounds and the fields the form sends.
- **The recurring-rules route** (`RecurringRules`). It validates a request, generates the dates and writes one rule plus its events per team. A write can fail part-way, and the model says exactly what is then in the database.
- **The other route handlers**, each over a `Store.Db` object whose tables are sequences in insertion order:
  - `Events`: event listing and creation, with notifications.
  - `Availabilities` and `AvailabilityCounts`: answers and per-event counts.
  - `Reminders`: the reminder job.
  - `Families` and `CreateFamily`: family listing, deletion and creation.
  - `Children`, `Teams`, `Places` and `EventTypes`.
  - The authentication routes: `Login`, `LoginByToken`, `LoginLink`, `Register`, `ChangePassword`, `NotificationSettings` and `CanRegister`.

A handler is a method:

- It takes the caller (`Option<AuthUser>`, None when there is no valid session) and the request fields (`Option<string>`, None when absent).
- It returns `Response<T>`: either `Ok(status, body)` or `Fail(status, message)`, carrying the French messages the routes send.
- Its `modifies` clause names the tables it writes.
- Its postcondition states the answer each check gives and the new contents of every table it writes; the "## Model" table says, handler by handler, which answers it pins in both directions ("if and only if").

Shared vocabulary lives in a few helper modules:

- `Common`: JavaScript truthiness, `trim`, lower-casing and decimal rendering.
- `Store`: records, lookups and the unique indexes.
- `Ordering`: a sort by a total preorder, which stands for MongoDB's `sort`.

Time works as follows:

- An instant is an integer count of milliseconds in one fixed local time zone.
- Day 0 is 1970-01-01, a Thursday.
- A JavaScript `Date` that may be invalid is modelled as `JsDate = Time(ms) | InvalidDate`.

Foreign code is passed in as parameters:

| foreign code | parameter |
|---|---|
| bcrypt | `hash` and `matches` |
| JWT signing | `sign` |
| `new Date(string)` | `parse` |
| the clock | `now` |
| the site URL | `baseUrl` |
| the e-mail service's verdict | `delivered` |

A failing database write is the `Fault` parameter. ObjectIds are strings drawn by `Store.Db.NewId`, which never hands out the same identifier twice. While every stored row's identifier has been handed out (`Store.Db.IdsIssued`), a new identifier also differs from every stored one.

## Model

| member | source | states |
|---|---|---|
| Calendar.Weekday | lib/recurrence.ts:26 | the weekday `getDay` returns is always in 0..6 |
| Calendar.DayOfMidnightPlus | lib/recurrence.ts:27-29 | an instant set to a clock time inside a day stays on that day, with that time of day |
| Calendar.AddDayNext | lib/recurrence.ts:35 | `addDays(d, 1)` moves to the next day and keeps the time of day |
| Calendar.ClockWithinDay | lib/recurrence.ts:27-29 | a valid HH:MM time falls inside one day |
| Calendar.ParseClock | lib/recurrence.ts:27 | a time string that parses gives a valid hour and minute |
| Calendar.DaysInMonth | lib/recurrence.ts:20-21 | a month has 28 to 31 days |
| Calendar.MonthSpan | lib/recurrence.ts:20-21 | `endOfMonth` falls 27 to 30 days after `startOfMonth` |
| Calendar.AddMonthsKeepsTimeOfDay | lib/recurrence.ts:81-82 | `setMonth` keeps the time of day |
| Calendar.DaysFromCivilNextDay | lib/recurrence.ts:35 | the day after d in a month is one day number later |
| Calendar.CivilRoundTrip | lib/recurrence.ts:20-21 | every day number names a valid Gregorian date, and numbering that date gives the day number back |
| Calendar.MonthContains | lib/recurrence.ts:20-21 | a day lies between the first and last days of its month, and an instant between `startOfMonth` and `endOfMonth` |
| Calendar.CalendarAnchors | lib/recurrence.ts:26 | 1970-01-01 is day 0; 2024-09-02 is a Monday (weekday 1) |
| Recurrence.SweepStep | lib/recurrence.ts:25-36 | one loop turn: the candidate of the current day, then the rest of the scan |
| Recurrence.SweepSound | lib/recurrence.ts:25-36 | every generated date lies on a scanned day with the requested weekday, at the requested time, and inside the window |
| Recurrence.SweepComplete | lib/recurrence.ts:25-36 | every scanned day with the requested weekday whose slot is in the window is generated |
| Recurrence.SweepMembership | lib/recurrence.ts:25-36 | a date is generated if and only if it is such a slot (both directions) |
| Recurrence.SweepIncreasing | lib/recurrence.ts:58-69 | the generated dates are on strictly increasing days, one date per day at most |
| Recurrence.SweepNoSuchWeekday | lib/recurrence.ts:26 | a weekday outside 0..6 generates nothing |
| Recurrence.ScanDays | lib/recurrence.ts:25-36 | the day loop returns exactly the dates the specification `Sweep` gives |
| Recurrence.GenerateMonthlyDates | lib/recurrence.ts:15-39 | the monthly loop returns the monthly specification |
| Recurrence.GenerateSeasonalDates | lib/recurrence.ts:44-72 | the seasonal loop returns the seasonal specification, including the missing-end-date error |
| Recurrence.GenerateContinuousDates | lib/recurrence.ts:77-100 | the rolling loop returns the continuous specification |
| Recurrence.GenerateEventDates | lib/recurrence.ts:105-116 | the dispatcher returns the specification for each period type |
| Recurrence.SweepWellFormed | lib/recurrence.ts:25-36 | generated dates are increasing, on the weekday and at the time |
| Recurrence.EventDatesWellFormed | lib/recurrence.ts:105-116 | every successful generation is increasing, on the weekday and at the time |
| Recurrence.EventDatesNoSuchWeekday | lib/recurrence.ts:105-116 | a weekday outside 0..6 gives no dates, except the seasonal error |
| Recurrence.EventDatesDispatch | lib/recurrence.ts:105-116 | an unknown period type gives no dates; generation fails if and only if a seasonal rule has no end date |
| Recurrence.MonthlyWindow | lib/recurrence.ts:19-33 | monthly: a date is generated if and only if it is in the start date's month, on the weekday, at the time, not before the start, and not after the given end |
| Recurrence.SeasonalWindow | lib/recurrence.ts:56-66 | seasonal: a date is generated if and only if it is on a day from start to end, on the weekday, at the time, and within [start, end] |
| Recurrence.SeasonalEndBeforeStart | lib/recurrence.ts:58 | an end before the start gives no dates |
| Recurrence.SeasonalMidnightEndDropsLastDay | lib/recurrence.ts:64 | an end date at midnight excludes a slot later that day |
| Recurrence.MonthlyMidnightEndDropsLastDay | lib/recurrence.ts:31 | the same holds for a monthly rule |
| Recurrence.ContinuousWindow | lib/recurrence.ts:81-94 | continuous: a date is generated if and only if it is on a day from the start up to the start plus the horizon in months, on the weekday, at the time, and not before the start |
| Recurrence.ContinuousKeepsFinalDay | lib/recurrence.ts:86-94 | the horizon's own day is included when it has the weekday |
| RecurrenceForm.SeasonDefaults | app/educator/events/page.tsx:525-539 | the season runs from 1 September to 30 June; it contains today except in July and August, when it has already ended |
| RecurrenceForm.SetMonth | app/educator/events/page.tsx:563-564 | `setMonth` with a month index beyond December moves into the following year |
| RecurrenceForm.SetDateZero | app/educator/events/page.tsx:565 | `setDate(0)` lands on the last day of the previous month |
| RecurrenceForm.ParseInt | app/educator/events/page.tsx:592 | `parseInt` without a radix: leading white space and one sign are skipped; after `0x` or `0X` hexadecimal digits are read, otherwise decimal ones; a number is read exactly when such a digit follows, and its sign follows the minus |
| RecurrenceForm.ParseIntOfRendered | app/educator/events/page.tsx:592 | a rendered weekday number parses back to itself |
| RecurrenceForm.ParseIntDigitPrefix | app/educator/events/page.tsx:592 | digits followed by a non-digit read as the digits' value (`"12abc"` is 12) |
| RecurrenceForm.ParseIntHexPrefix | app/educator/events/page.tsx:592 | after `0x`, hexadecimal digits followed by anything else read as their hexadecimal value |
| RecurrenceForm.ParseIntHexSixteen | app/educator/events/page.tsx:592 | `"0x10"` reads as 16, not 0 |
| RecurrenceForm.ParseIntSigned | app/educator/events/page.tsx:592 | leading blanks and a minus sign are read (`" -3"` is -3) |
| RecurrenceForm.HandleSubmit | app/educator/events/page.tsx:548-605 | refused if and only if there is no month (for a monthly rule), no team or no place, with the first message; otherwise the request sends the whole month, the form's dates, or no end date for continuous, plus the teams, the trimmed place, and the child selection only for one team |
| RecurrenceForm.SentEndDropsLastDay | app/educator/events/page.tsx:562-566 | the end date the form sends at midnight excludes the last day's slot |
| RecurringRules.TeamList | app/api/recurring-rules/route.ts:81-85 | the teams are the `teamIds` array when it is non-empty, otherwise the single `teamId` |
| RecurringRules.EndTimeField | app/api/recurring-rules/route.ts:150 | an empty end time is stored as absent |
| RecurringRules.MissingFieldsExactly | app/api/recurring-rules/route.ts:87-92 | for staff, the 400 missing-fields answer comes if and only if a required field or every team is missing |
| RecurringRules.AcceptedPlan | app/api/recurring-rules/route.ts:47-123 | an accepted request comes from staff, has a known type, a parsed start date, its team list, and an end date when seasonal |
| RecurringRules.GenerationSucceeds | app/api/recurring-rules/route.ts:110-140 | an accepted request never hits the generator's seasonal error |
| RecurringRules.TeamEventsAt | app/api/recurring-rules/route.ts:159-172 | the j-th event of a team is the j-th date with the team, the rule and the shared fields |
| RecurringRules.RulesForAt | app/api/recurring-rules/route.ts:146-157 | the i-th rule written is for the i-th team |
| RecurringRules.ExpansionLength | app/api/recurring-rules/route.ts:159-175 | n teams write n times the number of dates in events |
| RecurringRules.ExpansionAt | app/api/recurring-rules/route.ts:145-175 | the event at team t and date j carries that date, team and rule, is recurring, and is neither an exception nor custom |
| RecurringRules.EffectiveFault | app/api/recurring-rules/route.ts:146-157 | a rule the schema rejects fails at the first team's write |
| RecurringRules.CustomKindUnstorable | models/RecurringRule.ts:22-26 | a custom event type is outside the rule schema's enum, so the rule cannot be stored |
| RecurringRules.WriteTeam | app/api/recurring-rules/route.ts:146-180 | one team: its rule, then its events, are appended, or the write stops where the fault is |
| RecurringRules.ExpandTeams | app/api/recurring-rules/route.ts:142-186 | the loop over teams leaves exactly the expansion up to the failing write |
| RecurringRules.PostRecurringRule | app/api/recurring-rules/route.ts:47-195 | a rejection writes nothing; an acceptance writes the expansion of the generated dates |
| RecurringRules.ExpandedWithoutFault | app/api/recurring-rules/route.ts:142-186 | without a fault: 201, one rule per team with distinct ids, and teams times dates events, which is the count reported |
| RecurringRules.ExpandedWithFault | app/api/recurring-rules/route.ts:187-194 | a failing write gives 500 and leaves the earlier teams' rules and events in place |
| RecurringRules.UnstorableWritesNothing | app/api/recurring-rules/route.ts:146-157 | a rule the schema rejects gives 500 with nothing written |
| RecurringRules.RulesOfTeams | app/api/recurring-rules/route.ts:25-31 | the rules of the given teams, and only those |
| RecurringRules.ListRules | app/api/recurring-rules/route.ts:12-45 | 403 for non-staff; an admin sees every rule; an educator sees exactly the rules of their teams |
| EventTypes.Label | lib/eventTypes.ts:7-16 | the label of the first listed type with that key; otherwise the default label, or the key itself |
| EventTypes.FirstOfKey | lib/eventTypes.ts:12 | the first index with the key, or None exactly when no type has it |
| EventTypes.ListedLabelOverridesDefault | lib/eventTypes.ts:11-13 | a listed label wins over the default |
| EventTypes.KeyChar | app/api/event-types/route.ts:67 | every character becomes a key character or `_` |
| EventTypes.Sanitize | app/api/event-types/route.ts:67 | character by character replacement, with the same length |
| EventTypes.Collapse | app/api/event-types/route.ts:68 | no runs of `_` remain; the letters and digits, first and last character are kept |
| EventTypes.StripEdges | app/api/event-types/route.ts:69 | stripping edge underscores never lengthens the key |
| EventTypes.StripEdgesShape | app/api/event-types/route.ts:69 | the stripped key keeps the letters and digits and is empty only if there were none |
| EventTypes.DeriveKey | app/api/event-types/route.ts:63-69 | the key is key-shaped, keeps the label's letters and digits, and is `event` when it has none |
| EventTypes.AlnumTrim | app/api/event-types/route.ts:53-54 | trimming the label does not change the key's letters and digits |
| EventTypes.KeyShapedIsFixed | app/api/event-types/route.ts:63-69 | a key-shaped label is its own key |
| EventTypes.DeriveKeyIdempotent | app/api/event-types/route.ts:63-69 | deriving a key twice gives the same key |
| EventTypes.ByOrderThenTitleTotal | app/api/event-types/route.ts:24 | the order-then-label comparison is a total preorder |
| EventTypes.ListingIsCreationOrder | app/api/event-types/route.ts:24 | when orders are creation indexes, the sorted listing is the creation order |
| EventTypes.Defaults | app/api/event-types/route.ts:6-10 | three seeded types with distinct keys and labels, orders 0 to 2, matching the default labels |
| EventTypes.GetEventTypes | app/api/event-types/route.ts:12-39 | 401 without a session; an empty table is seeded with the defaults; the answer is the table sorted by order then label; unique keys and labels are kept |
| EventTypes.PostEventType | app/api/event-types/route.ts:41-99 | 403 unless admin; 400 for an empty label or a clashing key or label; otherwise the new type with the derived key and the next order is appended; the invariants are kept |
| Events.Filter | app/api/events/route.ts:74 | exactly the events matching the query |
| Events.FilterCounts | app/api/events/route.ts:74 | filtering keeps each matching event's multiplicity |
| Events.ParentOrMeansChild | app/api/events/route.ts:38-53 | the parent's `$or` holds exactly when one of their children (as parent 1 or 2) is selected or, without a selection, is in the event's team |
| Events.QueryMeansVisible | app/api/events/route.ts:35-72 | the query built for a caller matches an event if and only if the event is visible to them |
| Events.BuildQuery | app/api/events/route.ts:35-72 | a query that can be run exists exactly when the date range parses, and it selects the visible events |
| Events.ListEvents | app/api/events/route.ts:10-88 | 401 without a session; 500 for an unreadable range; otherwise the visible events with their multiplicity, sorted by date |
| Events.EducatorTeamParamOverrides | app/api/events/route.ts:56-65 | an educator's `teamId` parameter replaces their own-teams filter |
| Events.ParentTeamParamNarrows | app/api/events/route.ts:38-65 | a parent's `teamId` parameter only narrows what they see |
| Events.SelectedChildren | app/api/events/route.ts:154 | the children in the selection, and only those |
| Events.NoticesSound | app/api/events/route.ts:159-176 | every notice goes to the parent 1 of a selected child whose notifications are on |
| Events.NoticesComplete | app/api/events/route.ts:159-176 | every selected child whose parent has notifications on gets a notice |
| Events.Notify | app/api/events/route.ts:159-176 | the notification loop sends exactly the specified notices |
| Events.PostEvent | app/api/events/route.ts:90-191 | 403 for non-staff; 400 if and only if a required field is missing; with every field, 400 if and only if the type is unknown; with a known type, 201 with a custom, non-recurring event appended exactly when the date reads and the type is in the schema's enum, else 500; notices go out for a selection |
| Availabilities.FindAvailabilities | app/api/availabilities/route.ts:26-48 | exactly the answers matching the query |
| Availabilities.DropOrphans | app/api/availabilities/route.ts:54 | answers whose event or child is gone are dropped |
| Availabilities.SameTeamOnly | app/api/availabilities/route.ts:57-71 | the answers whose child is in the team, and only those |
| Availabilities.ListAvailabilities | app/api/availabilities/route.ts:10-81 | 401 without a session; otherwise exactly the answers visible to the caller |
| Availabilities.OwnedChild | app/api/availabilities/route.ts:105-117 | a child with that id that the caller parents, or None when there is no such child |
| Availabilities.KeyIndex | app/api/availabilities/route.ts:133-134 | the position of the answer for an (event, child) pair, or None when there is none |
| Availabilities.Upsert | app/api/availabilities/route.ts:133-143 | the answer for the pair is replaced in place or appended; other answers stay; the key stays unique |
| Availabilities.PostAvailability | app/api/availabilities/route.ts:83-158 | 403 unless parent; 400 if and only if a field is missing; then exactly: 403 for a child that is not the caller's, 500 when the event's team exists and the child's does not, 400 for another team, otherwise 201 with the answer replaced in place (same id) or appended with a new id |
| AvailabilityCounts.Split | app/api/availabilities/counts/route.ts:31 | `split(',')` gives at least one piece, none containing a comma |
| AvailabilityCounts.JoinSplit | app/api/availabilities/counts/route.ts:31 | joining the pieces gives back the parameter |
| AvailabilityCounts.SplitJoin | app/api/availabilities/counts/route.ts:31 | splitting joined comma-free pieces gives them back |
| AvailabilityCounts.TrimAll | app/api/availabilities/counts/route.ts:31 | each piece is trimmed |
| AvailabilityCounts.DropEmpty | app/api/availabilities/counts/route.ts:31 | exactly the non-empty pieces |
| AvailabilityCounts.ParsedIds | app/api/availabilities/counts/route.ts:31 | an id is parsed if and only if it is a non-empty trimmed piece |
| AvailabilityCounts.Answers | app/api/availabilities/counts/route.ts:55-60 | exactly the present/absent answers for the requested events |
| AvailabilityCounts.EventsWithIds | app/api/availabilities/counts/route.ts:44 | only requested events are read |
| AvailabilityCounts.CountedMeans | app/api/availabilities/counts/route.ts:67-84 | a child is counted for an event if and only if it has an answer that passes the team check |
| AvailabilityCounts.CountedBound | app/api/availabilities/counts/route.ts:67-84 | no more children are counted than there are answers |
| AvailabilityCounts.CountedAnswers | app/api/availabilities/counts/route.ts:55-60 | counting over the queried answers equals counting over the whole table |
| AvailabilityCounts.LeanTeamOfRequested | app/api/availabilities/counts/route.ts:43-53 | an event's team, read from the requested events, is its team in the whole table |
| AvailabilityCounts.EventTeams | app/api/availabilities/counts/route.ts:45-53 | the map from requested event to team |
| AvailabilityCounts.Tally | app/api/availabilities/counts/route.ts:67-84 | one loop step adds the answer's child to its event's set and keeps the count equal to the set's size |
| AvailabilityCounts.NothingSeen | app/api/availabilities/counts/route.ts:38-41 | every requested event starts at zero |
| AvailabilityCounts.CountLoop | app/api/availabilities/counts/route.ts:67-84 | each event's count is the number of distinct counted children |
| AvailabilityCounts.CountAvailabilities | app/api/availabilities/counts/route.ts:10-94 | 403 for non-staff; 400 without `eventIds`; otherwise one count per requested id, equal to its distinct counted children |
| Reminders.WindowIsTargetDay | app/api/cron/send-reminders/route.ts:32-41 | the window is exactly the day `daysBefore` days after today |
| Reminders.EventsBetween | app/api/cron/send-reminders/route.ts:43-48 | exactly the events dated inside the window |
| Reminders.ChildIdsOfTeam | app/api/cron/send-reminders/route.ts:62-63 | exactly the ids of the team's children |
| Reminders.Delivered | app/api/cron/send-reminders/route.ts:92-109 | no more e-mails are sent than attempted |
| Reminders.EventAttemptsMeans | app/api/cron/send-reminders/route.ts:67-86 | an e-mail is attempted for an event if and only if the concerned child is due, and it goes to that child's parent 1 |
| Reminders.AnsweredNotDue | app/api/cron/send-reminders/route.ts:68-74 | a child that answered present or absent gets no reminder |
| Reminders.RemindForEvent | app/api/cron/send-reminders/route.ts:67-111 | the per-child loop appends exactly the event's attempts and keeps sent plus errors equal to attempts |
| Reminders.FirstCrash | app/api/cron/send-reminders/route.ts:53-64 | the pass stops at an event that has no selection and whose team is gone, and at no earlier event |
| Reminders.RemindAll | app/api/cron/send-reminders/route.ts:53-112 | every event's attempts, or those before the first event that throws |
| Reminders.SendReminders | app/api/cron/send-reminders/route.ts:16-128 | 401 for a wrong secret; otherwise a report of the day, the event count, the sent count and the error count, or 500 after the attempts before the throwing event |
| Families.Members | app/api/admin/families/route.ts:43-87 | a family's children are exactly the children with that parent 1 |
| Families.MembersOf | app/api/admin/families/route.ts:78-86 | one entry per child, with its team's name and category |
| Families.FirstAppearanceMeans | app/api/admin/families/route.ts:46-58 | families appear once each, for every parent 1 that has a child |
| Families.SecondParentKept | app/api/admin/families/route.ts:63-74 | the first parent 2 found is kept |
| Families.ChildListedOnce | app/api/admin/families/route.ts:43-87 | a child is listed in its own family and in no other |
| Families.FamilyOfSnoc | app/api/admin/families/route.ts:60-86 | one loop step adds the child and, if still missing, the parent 2 |
| Families.Group | app/api/admin/families/route.ts:43-87 | one loop step keeps the map equal to the families of the children seen |
| Families.GroupAll | app/api/admin/families/route.ts:43-87 | the loop gives each family in order of first appearance, or fails on an unreadable child |
| Families.ListFamilies | app/api/admin/families/route.ts:9-100 | 403 unless admin; the families of the children sorted by name; 500 when a child's parent 1 or team is gone (a missing parent 2 is skipped) |
| Families.CoParents | app/api/admin/families/route.ts:133-143 | exactly the other parents named as parent 2 |
| Families.WithoutChildren | app/api/admin/families/route.ts:152 | exactly the children not deleted |
| Families.WithoutAnswers | app/api/admin/families/route.ts:149 | exactly the answers of children not deleted |
| Families.WithoutUser | app/api/admin/families/route.ts:155 | exactly the other users |
| Families.CollectCoParents | app/api/admin/families/route.ts:133-143 | the loop collects exactly the co-parents |
| Families.FamilyGone | app/api/admin/families/route.ts:124-152 | after deleting, no child names the parent |
| Families.RemoveUnreferenced | app/api/admin/families/route.ts:158-168 | a co-parent no remaining child references is deleted; everyone else stays |
| Families.DeleteFamily | app/api/admin/families/route.ts:102-182 | 403 unless admin; 400 without `parentId`; otherwise the parent, their children, the children's answers and unreferenced co-parents are deleted, and the counts are reported |
| CreateFamily.CompleteOnes | app/api/admin/create-family/route.ts:103-106 | only complete child entries are created |
| CreateFamily.Check | app/api/admin/create-family/route.ts:31-70 | validation passes only with both names, a valid role, children, and unused e-mails, giving the first failing message |
| CreateFamily.CreateParents | app/api/admin/create-family/route.ts:75-99 | parent 1 is created with a new id and the normalised e-mail, and nothing is written when that e-mail is blank; parent 2 exactly when both its name and e-mail are given; the writes fail if and only if an e-mail is blank once trimmed or parent 2's e-mail is parent 1's, and a failing parent 2 leaves parent 1 stored |
| CreateFamily.CreateChildren | app/api/admin/create-family/route.ts:101-121 | children are appended in order with ids not issued before, up to the first unreadable birth date |
| CreateFamily.CompleteOnesSnoc | app/api/admin/create-family/route.ts:103-106 | one loop step keeps a complete entry |
| CreateFamily.PostFamily | app/api/admin/create-family/route.ts:9-150 | 403 unless admin; 400 with the check's message; once the checks pass, 201 if and only if no e-mail is blank once trimmed, parent 2's e-mail differs from parent 1's and every complete child's birth date reads (else 500), with parent 1, parent 2 if named and the complete children created in order |
| Children.FindChildren | app/api/children/route.ts:36-40 | exactly the children matching the query |
| Children.ListChildren | app/api/children/route.ts:8-48 | 401 without a session; a parent sees their children as parent 1, an educator those of the given team or every child, an admin every child |
| Children.SecondParentSeesNothing | app/api/children/route.ts:23-25 | a parent named only as parent 2 does not see the child |
| Children.PostChild | app/api/children/route.ts:50-99 | 403 for educators; 400 for missing fields or parent; with every field and a parent, 201 if and only if the birth date reads (else 500), the child appended with a new id, the caller or the named parent as parent 1 and no parent 2 |
| Teams.ListTeams | app/api/teams/route.ts:6-33 | 401 without a session; an educator sees exactly their teams, others every team |
| Teams.PostTeam | app/api/teams/route.ts:35-70 | 403 for non-staff; 400 if and only if the name or category is missing; otherwise the team with the caller as educator is appended |
| Places.ByNameTotal | app/api/places/route.ts:18 | sorting by name is by a total preorder |
| Places.ListPlaces | app/api/places/route.ts:6-27 | 403 for non-staff; otherwise every place once, sorted by name |
| Places.PostPlace | app/api/places/route.ts:29-68 | 403 unless admin; 400 for an empty name or a case-insensitive duplicate; otherwise the trimmed place is appended; names stay distinct |
| Accounts.UserIndex | app/api/auth/change-password/route.ts:27 | the first user with the id, or None exactly when there is none |
| Accounts.TokenIndex | app/api/auth/login-by-token/route.ts:21 | a token row with the code, or None exactly when there is none |
| Accounts.TokenIndexFor | app/api/auth/login/route.ts:44-47 | a row with the code for that user, or None exactly when there is none |
| Accounts.RemoveAt | app/api/auth/login-by-token/route.ts:47 | deleting one row keeps the others in order |
| Accounts.RemoveAtUnique | app/api/auth/login-by-token/route.ts:29-47 | with unique codes, a deleted code is gone and codes stay unique |
| Common.JsLength | app/api/auth/change-password/route.ts:20 | `length` counts UTF-16 code units: between one and two per character, and one each when every character is in the Basic Multilingual Plane |
| Common.AstralLength | app/api/auth/change-password/route.ts:20 | three characters beyond the Basic Multilingual Plane have length 6 |
| Common.RoleOf | app/api/auth/register/route.ts:20-25 | exactly `parent`, `educator` and `admin` are roles |
| Common.TrimShape | app/api/places/route.ts:41-42 | a trimmed string has no edge whitespace and is empty only for blank input |
| Common.TrimIdempotent | app/api/places/route.ts:41-42 | trimming twice is trimming once |
| Common.LowerIdempotent | models/User.ts:22 | lower-casing twice is lower-casing once |
| Common.LowerTrimCommute | app/api/auth/login/route.ts:31 | lower-casing and trimming commute |
| Common.DecimalRoundTrip | app/api/auth/login-link/route.ts:46 | a rendered number is a digit string that reads back as itself |
| Login.LoginEmailIsStoredForm | app/api/auth/login/route.ts:30-34 | the login route's normalised e-mail is the stored form |
| Login.Decide | app/api/auth/login/route.ts:15-76 | refusals are 400 or 401; an expired code is that row; a grant is the account with a live code or a matching password |
| Login.GrantMeans | app/api/auth/login/route.ts:42-76 | a login is granted if and only if the account exists and has a live code for it, or, without a code, the password matches |
| Login.CodeRow | app/api/auth/login/route.ts:44-47 | the token row a code login uses has that code |
| Login.CodeReusable | app/api/auth/login/route.ts:65-66 | a code that works keeps working until it expires |
| Login.PostLogin | app/api/auth/login/route.ts:9-116 | a refusal changes nothing; an expired code is deleted, then 401; a grant opens a session and keeps the code; codes stay unique |
| LoginByToken.LoginWithToken | app/api/auth/login-by-token/route.ts:7-84 | 400 without a token; 401 for an unknown one; a known token is deleted, then expired 401, missing user 404, or a session; it cannot be used twice |
| LoginLink.SixDigits | app/api/auth/login-link/route.ts:46 | a code from 100000 to 999999 has six digits |
| LoginLink.CreateLoginLink | app/api/auth/login-link/route.ts:10-77 | 403 unless admin; 400 or 404 for a missing, unknown or non-parent user; for a parent, 200 if and only if the drawn code is not already stored (else 500), the six-digit code valid for 100 years stored under a new id and returned with its link |
| Register.PostRegister | app/api/auth/register/route.ts:6-76 | 400 for a missing field, a bad role or a used e-mail; otherwise the user with the normalised e-mail and hashed password is appended with a session; e-mails stay unique |
| ChangePassword.PostChangePassword | app/api/auth/change-password/route.ts:6-61 | 401; 400 for a password shorter than 6 UTF-16 code units; 404; 400 for a wrong current password when given; otherwise only that user's password changes; e-mails stay unique |
| NotificationSettings.FlagOrTrue | app/api/user/notification-settings/route.ts:24-25 | a flag is on unless it is explicitly false |
| NotificationSettings.PutSettings | app/api/user/notification-settings/route.ts:6-54 | 401; 404 for a missing user; otherwise both flags are replaced and the profile is returned |
| CanRegister.CanRegister | app/api/auth/can-register/route.ts:6-23 | first setup if and only if there are no users; then anyone may register, otherwise only an admin; an error allows nothing |
| Store.Selection | app/api/events/route.ts:136 | an empty selection means the whole team |
| Store.ChildrenOf | app/api/events/route.ts:39-45 | exactly the children the user parents |
| Store.FindUserByEmail | app/api/auth/register/route.ts:28 | a user with that e-mail, or None when there is none |
| Ordering.SortBySorted | app/api/places/route.ts:18 | sorting by a total preorder gives a sorted permutation |
| Ordering.SortByIdentity | app/api/event-types/route.ts:24 | sorting a sorted sequence changes nothing |

## Left out

- Time zones, daylight saving time and leap seconds: an instant is local milliseconds in a zone of fixed offset.
- Times of day that do not parse: `RecurringRules.Validate` requires `HH:MM` times. JavaScript would carry an invalid time through `setHours` into invalid dates.
- Invalid dates in the generator, beyond an end date that does not parse. Comparisons with an invalid date are false, which is modelled.
- bcrypt, JWT signing, cookie attributes, the random passwords of created families and the Math.random draw of a login code: these are parameters or nondeterministic choices.
- The e-mail service (EmailJS) and its network calls: delivery is an oracle `delivered`, and the content of the messages is not modelled.
- An ObjectId cast error on a malformed id: ids are strings that either match or do not.
- MongoDB's TTL index on `expiresAt`, which deletes expired tokens in the background.
- The constant `TOKEN_VALIDITY_HOURS`, which the login-link route does not use. It stores 100 years instead, as modelled.
- Concurrency between requests: each handler runs alone on the database.
- Store.Db.IdsIssued: the handlers are not proved to preserve it. Their contracts promise an id not issued before, which differs from every stored id only while it holds.
- Case folding beyond ASCII, and Unicode normalisation: `Lower` maps only `A`-`Z`, and `Trim` and the blank-skipping of RecurrenceForm.ParseInt strip only ASCII whitespace.
- EventTypes.DeriveKey: the route's NFD decomposition and removal of combining accents is not modelled, so an accented letter becomes `_` instead of its base letter.
- `$` in the duplicate check of the event-types route also matching before a final newline: the check is modelled as case-insensitive equality.
- The order among documents with equal sort keys: MongoDB does not promise one. The model fixes it as the stored order (`Ordering.SortBy` is a stable sort), so Families.ListFamilies and EventTypes.GetEventTypes pin one of the orders the database may return.
- EventTypes.Label: `DEFAULT_LABELS[type]` at lib/eventTypes.ts:15 is a plain object lookup, so a key such as `constructor` would return a member inherited from `Object.prototype`. The model looks up the three listed keys only; stored event kinds never take such names.
- The reminder job's `REMINDER_DAYS_BEFORE` parsing from the environment: `daysBefore` is a parameter.
- The reminder e-mail's event-type label lookup: only who is reminded is modelled.
- Events.PostEvent: the route ignores an `endTime` field in the body; the model stores none as well.
- Families.ListFamilies: a child whose parent reference dangles makes the route answer 500. `child.parentId._id` at app/api/admin/families/route.ts:44 throws when populate gives null, so the `if (!parent1) continue` at lines 47-48 never skips a child.
- CreateFamily.PostFamily: the writes made before a failure stay in the database. The contract for the 500 answer names the failure's cause, not the partial state.
- AvailabilityCounts.CountAvailabilities: an event's team is read from the raw `teamId` of the event row (`LeanTeam`), not from a populated team.
- LoginByToken.LoginWithToken: the session reply is modelled as `Accounts.Session`, with the user's settings inside.
- The routes' `deleteOne` by `_id` is modelled as removal at the found index (`Accounts.RemoveAt`).
- The text of the 500 answers: every server error is the one message `ServerError`.
- The client pages other than the recurrence form, and the routes under `[id]` paths: these are not part of this model.
