# BaseballAcademy training-assignment core, in Dafny

BaseballAcademy is a multi-academy training backend with a web front end. Every
athlete has a classification: level, weekly frequency and age group. An academy's
rule table maps each classification to a session template, which is an ordered list of
drills. The backend creates sessions from these rules, checks athletes in on the day,
logs the drills they complete, and summarises each child for a parent. An
authorization gate in front of every route reads the caller from three headers.

This project models that core as an in-memory relational store with the operations
on it, and proves what each operation does to the store.

- `common.dfy`: the entities, enumerations and failures.
- `query.dfy`: the store's generic query primitives: first match, filter, stable
  insertion sort under a total preorder, lexicographic string order, sums, and
  all-or-nothing mapping.
- `store.dfy`: the `Store` class. It has one sequence per table and the next key of
  each table the core inserts into. Its `Valid()` collects the constraints the
  database enforces. These are the primary key of every table that has an id (no
  two rows of a table share an id), one athlete profile per user, the unique classification key of a rule, and the foreign
  keys the core relies on. Each store method behaves as the database call it
  stands for. It refuses a missing row, a taken key or a dangling reference with
  `StoreError`, and it keeps `Valid()`. Two methods instead require that the template
  they store exists: `InsertSession` and `SetSessionTemplate`. Their callers have
  already found that template in the table.
- `rule_engine.dfy`: the rule resolver.
- `session_generator.dfy`: the session generator.
- `attendance.dfy`: the day's check-in.
- `session_routes.dfy`: the coach and athlete session views, the drill-completion log
  and the coach's template override.
- `rules.dfy`: the rule administration routes.
- `drills.dfy`: the drill catalog, including the cascading delete.
- `parent.dfy`: the per-child statistics for parents.
- `auth.dfy`: the authorization gate.
- `coach_dashboard.dfy`: the coach page's safety check and its open/close toggle.

Operations that change rows are methods on the store that say exactly which tables
they modify. Each one states the new contents of those tables in terms of the old,
on success and on failure.
Read-only views and folds are functions.

Request values are modelled as follows:
- A number parsed from a request is an `Option<int>`, where `None` stands for NaN.
- An enumeration field of a request body is a `Field`: absent, a member of the
  enumeration, or malformed.
- A body id on `complete-drill` is a `BodyId`. It is either falsy, or truthy together
  with what `parseInt` makes of it.

The model follows the code. The points below follow from it:
- Check-in only moves an existing attendance to PRESENT. It creates no session, and it
  records no wellness data.
- The session template override and the updates and deletes of rules and drills look
  their row up by id alone. They do not scope it to the caller's academy. Only the
  template search of the override, and the list and create routes, are scoped.
- Rule update makes no duplicate-tuple check. A clash is refused by the unique index
  and reported as a 500.
- The completion rate is not capped at 100, because completions are not deduplicated
  (`CompletionRateUncapped`).
- Two clicks on "Manage Session" restore the previous state only when no session, or
  that same session, was open (`ToggleTwice`).

## Model

| member | source | states |
|---|---|---|
| Store.Store.InsertSession | backend/src/services/sessionGenerator.ts:32-43 | the nested create appends exactly one session and its attendance under fresh keys, together, and keeps every key and foreign-key constraint |
| Store.Store.CreateCompletion | backend/src/routes/session.ts:73-78 | a completion is stored iff its attendance exists; it is appended under a fresh key, with no duplicate check; a refusal writes nothing |
| Store.Store.SetSessionTemplate | backend/src/routes/session.ts:102-106 | succeeds iff the session exists; only that session's templateId changes, and every other row and field stays as it was |
| Store.Store.CreateRule | backend/src/routes/rules.ts:40-48 | succeeds iff the template exists and the classification key is free; the rule is appended under a fresh key; the key stays unique |
| Store.Store.UpdateRule | backend/src/routes/rules.ts:61-69 | succeeds iff the rule and the template exist and the patched key clashes with no other rule; only that row changes, as patched |
| Store.Store.DeleteRule | backend/src/routes/rules.ts:80-82 | succeeds iff a rule has the id; exactly that rule is removed, and all others survive in order |
| Store.Store.CreateDrill | backend/src/routes/drills.ts:29-40 | the drill is appended under a fresh key with the given academy, content and difficulty |
| Store.Store.UpdateDrill | backend/src/routes/drills.ts:53-64 | succeeds iff the drill exists; only its content and difficulty change, and no other row changes |
| Store.Store.DeleteAssignmentsOf | backend/src/routes/drills.ts:76 | the template-drill table becomes exactly the rows that do not refer to the drill, in order |
| Store.Store.DeleteDrill | backend/src/routes/drills.ts:78-80 | succeeds iff the drill exists and no assignment still refers to it (restrictive relation); exactly that drill is removed |
| RuleEngine.FindRule | backend/src/services/ruleEngine.ts:11-19 | finds a rule whose key is exactly (academy, level, frequency, group), and finds none iff no rule has that key |
| RuleEngine.DrillsOf | backend/src/services/ruleEngine.ts:21-31 | the template's drill assignments are exactly the rows with that templateId |
| RuleEngine.OrderedDrills | backend/src/services/ruleEngine.ts:23-29 | the template's assignments, as a permutation, ascending by `order` |
| RuleEngine.ResolveTemplate | backend/src/services/ruleEngine.ts:11-40 | fails iff no rule has the exact key, with an error naming the academy and the three values; otherwise returns a template of a matching rule with its drills permuted ascending by order; reads only |
| RuleEngine.ResolveExact | backend/src/services/ruleEngine.ts:11-40 | with unique keys, a rule in the table determines the result: it is that rule's template |
| RuleEngine.ResolveIsAcademyScoped | backend/src/services/ruleEngine.ts:13-18 | rules of other academies never influence the result: resolving against the academy's own rules gives the same answer |
| SessionGenerator.FindAthlete | backend/src/services/sessionGenerator.ts:11-16 | finds the profile with the id, and finds none iff there is none |
| SessionGenerator.AcademyOf | backend/src/services/sessionGenerator.ts:18-23 | the academy is the one of the user owning the profile |
| SessionGenerator.FindCoach | backend/src/services/sessionGenerator.ts:26-28 | the chosen user is a COACH of the academy, and there is none iff no such user exists |
| SessionGenerator.PlanSession | backend/src/services/sessionGenerator.ts:11-30 | fails with AthleteNotFound iff no profile has the id; a resolver failure names the athlete's own classification; NoCoachAvailable only when the academy has no coach; a NoRule failure names the athlete's academy too, and a missing rule always gives that NoRule, since the rule is resolved before the coach is looked up; for an existing athlete, success holds iff a rule has the athlete's exact key in the athlete's academy and that academy has a coach; on success, the academy is the athlete's, the template comes from the matching rule, and the coach is a coach of that academy |
| SessionGenerator.GenerateAthleteSession | backend/src/services/sessionGenerator.ts:10-45 | every failure writes nothing; success writes exactly one session (given date, resolved template, chosen coach, athlete's academy) and one PENDING attendance for that athlete |
| SessionGenerator.GenerateTwice | backend/src/services/sessionGenerator.ts:6-45 | not idempotent: the second call for the same athlete and date succeeds iff the first does, and two successes append two distinct sessions and two PENDING attendances of that athlete, one per session; a failing first call is repeated by the second and nothing is written |
| AttendanceRoutes.FindProfile | backend/src/routes/attendance.ts:13-20 | finds the profile owned by the user, and finds none iff none exists |
| AttendanceRoutes.FindTodayAttendance | backend/src/routes/attendance.ts:32-46 | an attendance of the athlete whose session date d satisfies today <= d < tomorrow and whose session is in the caller's academy; none iff no such attendance exists |
| AttendanceRoutes.FindTodayIgnoresStatus | backend/src/routes/attendance.ts:32-46 | the status is not part of the search: changing one attendance's status does not change which attendance is found |
| AttendanceRoutes.CheckIn | backend/src/routes/attendance.ts:9-69 | no profile gives 404 and no write; no attendance today gives 404 and no write; PRESENT or COMPLETED gives "already checked in" with its sessionId and no write; otherwise exactly that attendance's status becomes PRESENT and its sessionId is returned |
| AttendanceRoutes.CheckInTwice | backend/src/routes/attendance.ts:57-66 | a second check-in after a successful one answers "already checked in" for the same session and writes nothing, so the table ends with exactly one attendance moved to PRESENT (none when the first answer was already "checked in"); a failure repeats itself and writes nothing; the store stays valid |
| SessionRoutes.CoachSessions | backend/src/routes/session.ts:10-14 | exactly the sessions whose coach and academy are both the caller's |
| SessionRoutes.CoachSessionsAfterInsert | backend/src/routes/session.ts:10-14 | a new session joins the end of its own coach's view in its own academy, and of no other view |
| SessionRoutes.CompletedDrillIds | backend/src/routes/session.ts:59 | one entry per completion record of the attendance, so duplicates are kept; the entries are exactly the drills completed in that attendance |
| SessionRoutes.CompletionLogged | backend/src/routes/session.ts:73-78 | logging a completion appends its drill to its attendance's list, even when already there, and changes no other attendance's list |
| SessionRoutes.ViewOf | backend/src/routes/session.ts:55-60 | the flattened session: its session, that session's template, the template's drills permuted ascending by order, the attendance id, the program and the completed drill ids |
| SessionRoutes.AthleteSessions | backend/src/routes/session.ts:32-61 | one view per attendance of the calling athlete user, in table order; each view is that attendance's flattened session, carrying its selected program and a template from the template table, with the drills ascending by order |
| SessionRoutes.CompleteDrill | backend/src/routes/session.ts:64-81 | a falsy attendanceId or drillId gives 400 and nothing is appended; otherwise exactly one completion (attendanceId, drillId) is appended with no duplicate check, or, for NaN or an unknown attendance, the store refuses and nothing is appended |
| SessionRoutes.FindTemplate | backend/src/routes/session.ts:90-96 | a template of the caller's academy with the requested workout type and duration, none iff none fits |
| SessionRoutes.SetupSession | backend/src/routes/session.ts:84-112 | no matching template in the caller's academy gives 404 and the session is unchanged; with a match, only that session's templateId is set to the match, date, coach and academy are untouched, and the stored row is returned; a missing session or bad field is a 500 with no change |
| RuleRoutes.ListRules | backend/src/routes/rules.ts:9-17 | exactly the rules of the caller's academy |
| RuleRoutes.ListRulesAfterCreate | backend/src/routes/rules.ts:40-48 | a created rule appears at the end of its own academy's list and in no other |
| RuleRoutes.CreateRule | backend/src/routes/rules.ts:20-53 | a taken (academy, level, frequency, group) gives 400 and no change; otherwise one rule in the caller's academy is appended (or the store refuses, with a 500 and no change); the resolver then maps the tuple to the new rule's template, so at most one rule per tuple is kept |
| RuleRoutes.UpdateRule | backend/src/routes/rules.ts:56-74 | no tuple pre-check: succeeds iff the store accepts the patched row; only that rule changes; every failure is a 500 with no change |
| RuleRoutes.DeleteRule | backend/src/routes/rules.ts:77-87 | succeeds iff the id parses and names a rule; exactly that rule is removed, and every other rule survives in order |
| DrillRoutes.ListDrills | backend/src/routes/drills.ts:9-15 | a permutation of the caller's academy's drills, ascending by category |
| DrillRoutes.Difficulty | backend/src/routes/drills.ts:35 | the parsed difficulty when it is a nonzero number, otherwise 1 |
| DrillRoutes.CreateDrill | backend/src/routes/drills.ts:26-45 | the new drill is in the caller's academy, with the given content and the defaulted difficulty, under a fresh id |
| DrillRoutes.UpdateDrill | backend/src/routes/drills.ts:48-69 | succeeds iff the id parses and names a drill; that drill's row then holds the given content and the defaulted difficulty; no drill's id or academy ever changes; other drills are untouched |
| DrillRoutes.DeleteDrill | backend/src/routes/drills.ts:72-82 | afterwards no assignment refers to the drill and the drill is gone; assignments of other drills and all other drills survive, in order; an unknown id changes nothing |
| ParentRoutes.Minutes | backend/src/routes/parent.ts:46-50 | MIN_120 gives 120, MIN_75 gives 75, every other duration gives 60 |
| ParentRoutes.AttendanceRate | backend/src/routes/parent.ts:57 | 100 iff the child has any attendance, whatever its status, otherwise 0 |
| ParentRoutes.CompletionRate | backend/src/routes/parent.ts:61 | 0 when there are no drills; otherwise the nearest integer to 100·completed/total, halves rounded up |
| ParentRoutes.CompletionRateAtMost100 | backend/src/routes/parent.ts:61 | at most 100 when completions do not exceed drills |
| ParentRoutes.CompletionRateUncapped | backend/src/routes/parent.ts:61 | the rate is not capped: it exceeds 100 for some inputs |
| ParentRoutes.StatsOf | backend/src/routes/parent.ts:44-61 | the total drills, completed drills and total minutes are the sums over the visits; the attendance rate and the completion rate are those of the sums; total time lies between 60 and 120 minutes per attendance |
| ParentRoutes.StatsIgnoreOrder | backend/src/routes/parent.ts:44-50 | the totals are folds: the same for every order of the attendances |
| ParentRoutes.History | backend/src/routes/parent.ts:63-66 | one (date, status) entry per attendance, in the same order |
| ParentRoutes.VisitOf | backend/src/routes/parent.ts:19-29 | an attendance read with its session's date, the template's drill count and duration, and its completion count |
| ParentRoutes.VisitsInTableOrder | backend/src/routes/parent.ts:17-31 | one visit per attendance of the child |
| ParentRoutes.Visits | backend/src/routes/parent.ts:30 | a permutation of the child's visits, newest session date first |
| ParentRoutes.SummaryOf | backend/src/routes/parent.ts:39-67 | fails iff the linked user has no athlete profile (or no user row); otherwise gives the profile id, "first last" name, the placeholder age, the stats of the child's visits and the newest-first history |
| ParentRoutes.ChildrenSummary | backend/src/routes/parent.ts:9-71 | one summary per link of the calling parent, in link order, each being that link's summary |
| ParentRoutes.ChildrenSummaryFails | backend/src/routes/parent.ts:40 | the whole answer fails iff some athlete linked to the parent has no profile |
| Auth.Decide | backend/src/middlewares/auth.ts:13-36 | 401 iff a header is missing or empty; 403 iff all are present and the role is not allowed; otherwise admits the caller with the header's role (an allowed one) and the converted id and academy |
| Auth.MissingHeaderWins | backend/src/middlewares/auth.ts:20-26 | a missing header gives 401 whatever the allowed roles: presence is decided before the role |
| Auth.RoleNamesDistinct | backend/src/middlewares/auth.ts:18 | roles and their header names correspond one to one |
| Auth.AdmittedRoleIsHeaderRole | backend/src/middlewares/auth.ts:24-33 | all headers present and the header naming an allowed role: admitted, with exactly that role |
| Auth.Request.Authorize | backend/src/middlewares/auth.ts:28-35 | the request carries the admitted caller after admission, and is left unchanged on rejection |
| CoachDashboard.UnrecordedNotForced | client-next/src/app/coach/page.tsx:129-130 | an athlete with nothing recorded (condition 3, no pain) is not forced |
| CoachDashboard.OnlyConditionOneForces | client-next/src/app/coach/page.tsx:130 | without pain, a condition forces the recovery workout iff it is 1, so 2 does not |
| CoachDashboard.ChooseCondition | client-next/src/app/coach/page.tsx:146-149 | sets that athlete's condition, keeps their pain flag, and leaves every other athlete's state unchanged |
| CoachDashboard.TogglePain | client-next/src/app/coach/page.tsx:165-168 | flips that athlete's pain flag, keeps their condition, and leaves every other athlete's state unchanged |
| CoachDashboard.ForcedAfterChoice | client-next/src/app/coach/page.tsx:129-149 | after a score is chosen, the athlete is forced iff the score is 1 or pain was flagged |
| CoachDashboard.TogglePainTwice | client-next/src/app/coach/page.tsx:165-168 | two pain clicks show every athlete as before |
| CoachDashboard.Toggle | client-next/src/app/coach/page.tsx:105 | clicking the open session closes it; clicking any other opens that one |
| CoachDashboard.ToggleTwice | client-next/src/app/coach/page.tsx:105 | two clicks on one session restore the prior state iff none or that session was open; otherwise none is open |
| CoachDashboard.Dashboard.constructor | client-next/src/app/coach/page.tsx:38-41 | the page starts with no open session and no recorded check-ins |
| CoachDashboard.Dashboard.ManageClicked | client-next/src/app/coach/page.tsx:105 | the open session becomes the toggle of the old one |
| CoachDashboard.Dashboard.ScoreClicked | client-next/src/app/coach/page.tsx:146-149 | the check-in map becomes the score update of the old one |
| CoachDashboard.Dashboard.PainClicked | client-next/src/app/coach/page.tsx:165-168 | the check-in map becomes the pain toggle of the old one |

## Left out

- Rendering, `fetch`, loading and error UI state of the client pages are not modelled. Of the coach page, only its state and click handlers are modelled.
- Logging (`console.log`) is not modelled, because it has no effect on the data.
- The server's local midnight is a parameter. `CheckIn` takes `today` and `tomorrow` as timestamps, because the timezone arithmetic of `setHours` and `setDate` is I/O.
- `Number` of a header is a parameter `toNumber` of `Auth.Decide`. `parseInt` of a body or path value is an `Option<int>` given to the route, with `None` for NaN. The string-to-number conversions themselves are not modelled.
- Auth.Decide: `toNumber` is total and integer-valued, so a caller id or academy id that is NaN or fractional (a header such as "abc" or "1.5") is excluded from the model.
- Auth.Decide: a header given twice (an array value) is not modelled; a header is one string or absent.
- The Prisma schema is not part of this model. These constraints are inferred from how the code uses relations:
  - the primary keys;
  - the unique rule key;
  - one profile per user;
  - the foreign keys, of which `Valid()` holds only those the core relies on;
  - a restrictive drill-to-assignment relation.
  Only refusals the core can meet are modelled.
- Concurrency and transactions are not modelled. Two concurrent check-ins or generations can interleave in the real system. The model runs one request at a time, and it treats the nested create of a session with its attendance as atomic.
- `backend/src/index.ts` mounts only the session and attendance routers. The model treats every route as reachable.
- The `GET /drills/templates` listing is not modelled. It is a plain filter by academy, outside the core.
- RuleEngine.ResolveTemplate: the drill rows joined into each template drill are not modelled; the template carries the template-drill rows.
- DrillCompletion.drillId is a plain column with no foreign key. A completion may name any drill id, and deleting a drill leaves its completions in place.
- SessionGenerator.GenerateAthleteSession: the new attendance's `selectedProgram` is taken to be empty. The source never writes that column, so it holds the schema's default, and the schema is not part of this model.
- RuleRoutes.ListRules: returns the rules only; the template included with each rule is not modelled.
- SessionRoutes.SetupSession: returns the updated session only; the template included with it is not modelled.
- A `findMany` without `orderBy` is modelled as returning rows in table (insertion) order. The database does not promise that order. `CoachSessionsAfterInsert` and `ListRulesAfterCreate` state that a new row joins the end of its view, and this rests on that choice.
- There is no academy table. Academy ids are plain values, so `RuleRoutes.CreateRule` and `DrillRoutes.CreateDrill` accept any academy id the headers carry. A foreign key to an academy table would refuse an id that names no academy; that refusal is not modelled.
- SessionRoutes.CoachSessions: returns the sessions only; the template, drills, attendances and athletes included with each session are not modelled.
- SessionRoutes.AthleteSessions: the drill rows joined into each template drill are not modelled; the view carries the template-drill rows.
- SessionRoutes.CompleteDrill: the handler has no try/catch, so a store refusal there is an unhandled rejection rather than a 500; the model reports it as `StoreError` without modelling the missing response.
- DrillRoutes.DeleteDrill: likewise unhandled in the source; modelled as `StoreError`, and an unparsable id is refused before either delete runs.
- DrillRoutes.CreateDrill: a missing required column (a store refusal) is not modelled; the drill content is taken as given and the create always succeeds.
- DrillRoutes.UpdateDrill: the whole drill content is written; a body field left `undefined`, which the store would leave unchanged, is not modelled separately.
- ParentRoutes.CompletionRate: computed on exact rationals; where the floating-point value of completed/total·100 differs from the exact one at a .5 boundary, `Math.round` may differ by one.
- ParentRoutes.Visits: the order among attendances with equal session dates is the database's choice; the model fixes one (stable) and proves only the date-descending order and the permutation.
- ParentRoutes.SummaryOf: the age is a fixed placeholder, as in the source; the email the gate attaches is a constant too.
- ParentRoutes.SummaryOf: a missing profile is a TypeError in a handler without try/catch, so it is an unhandled rejection rather than a 500; the model reports it as `StoreError` without modelling the missing response.
- Auth.Request.Authorize: calling `next` is not modelled beyond returning the admission.
