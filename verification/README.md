# Schedulr core, modelled in Dafny

Schedulr is a tutoring centre's web application. Administrators set up classes, authorised
students and authorised parents. Parents register, enrol their children and request schedule
changes. Teachers and administrators review those requests.

This project models the rules behind that: the route handlers' guard sequences and writes, the
schedule pages' grid construction, the dashboard counts, the form helpers, and the two batch
scripts. It then proves what each of them promises.

## How the model is built

- **The store.** `Schema.Database` is a class holding each table as a sequence of rows in storage
  order, plus `nextId`, which stands for the id generator. `Database.Valid` is the invariant every
  write keeps:
  - every id is below `nextId`;
  - class ids are distinct and no class is over capacity;
  - every row of the administrator class table is well formed.
- **Two class shapes.**
  - The administrator class route works on `NamedClass`: a name, a day name and `"HH:mm"` strings.
  - The class, enrollment and schedule routes work on `ClassSlot`: a subject, a day number with
    Sunday = 0, instants and a capacity.
  - The schedule pages see classes through `GridClass`.
- **The session** is an `Option<Actor>`, where `Actor` holds an id, a role (ADMIN, TEACHER, PARENT
  or an unrecognised one) and the `isAdmin` flag. The administrator class route and the dashboard
  schedule page read that flag; every other route reads the role.
- **Each handler is two members.**
  - A pure `...Check` function returns the first guard that fails, as a `Reason` that carries its
    HTTP status. Its contract names the set of reasons it can give, and states each reason, and
    acceptance, as an if-and-only-if over the guards before it.
  - A method performs the one write. Its contract ties the new tables to the old ones.
- **Listings** are functions. Ordering by `createdAt desc` is a sort on a key, proved sorted and a
  permutation of the visible rows.
- **The scripts** are loops over the store. Each is proved equal to a step-by-step specification
  function, and the lemmas about that function carry the script's promises: coverage,
  idempotence, and failures that skip only their own entry.
- **Inputs from outside** are parameters: the clock (`now`), bcrypt hashes, and the failing
  entries of the seeding script.

The model follows the code as written, including these behaviours a reader might not expect:

- The register route never calls `isPasswordStrong`.
- It accepts any role, ADMIN included.
- The class POST route performs no validation.
- The overlap query does not catch an enclosing slot.

## Model

| member | source | states |
|---|---|---|
| TimeOfDay.Minutes | src/app/api/admin/classes/route.ts:69 | a valid "HH:mm" time denotes a minute of the day in 0..1439 |
| TimeOfDay.FormatTime | src/app/api/admin/classes/route.ts:69 | every minute of the day has a valid "HH:mm" string denoting it |
| TimeOfDay.FormatOfMinutes | src/app/api/admin/classes/route.ts:69 | a valid time string is the formatting of its own minute value (the notation is one-to-one) |
| TimeOfDay.LexOrderIsTimeOrder | src/app/api/admin/classes/route.ts:84-96 | for two valid time strings, the string comparisons the overlap query uses agree with comparing minutes (strict and non-strict) |
| TimeOfDay.DayName | src/app/dashboard/request-change/page.tsx:118-121 | day 0..6 names Sunday..Saturday; any other number yields nothing |
| TimeOfDay.DayNameRank | src/app/api/admin/classes/route.ts:24-26 | a rank below 7 exactly for the seven day names |
| TimeOfDay.DayNameRankIsStringOrder | src/app/api/admin/classes/route.ts:24-26 | on day names the rank orders exactly as the store's string order of `dayOfWeek` |
| Validation.EmailMatchesPattern | src/components/ParentModal.tsx:44 | the email check holds iff the string matches `^[^\s@]+@[^\s@]+\.[^\s@]+$`: one '@' that is not first, no whitespace, a '.' after the '@' with text on both sides |
| Validation.PhoneShape | src/components/ParentModal.tsx:49 | an accepted phone has at least 8 digits, spaces or hyphens, and a '+' can only come first |
| Validation.StrongPasswordExtends | src/app/api/auth/register/route.ts:8-20 | appending text to a strong password (length at least 8, with an upper-case letter, a lower-case letter, a digit and a special character) keeps it strong |
| Validation.IsEmail | src/app/api/admin/students/route.ts:58-65 | the email test; `Validation.EmailIsPattern` and `Validation.PatternIsEmail` prove it equal to the regular expression |
| Validation.IsPhone | src/app/api/admin/students/route.ts:67-73 | the phone test; `Validation.PhoneShape` states the accepted shape |
| Validation.IsPasswordStrong | src/app/api/auth/register/route.ts:8-20 | the password test defined beside the registration handler, which never calls it; the lemmas below state what it accepts and refuses |
| Validation.StrongPasswordOrderFree | src/app/api/auth/register/route.ts:10-19 | each test asks only whether a kind of character occurs, so swapping two parts of a password keeps its verdict |
| Validation.PasswordRulesEachNeeded | src/app/api/auth/register/route.ts:8-20 | "Passw0rd!" is strong; a 4-character password with every kind of character is weak |
| Validation.PasswordNeedsBothCases | src/app/api/auth/register/route.ts:10-11 | dropping the upper-case or the lower-case letter from a strong password makes it weak |
| Validation.PasswordNeedsDigitAndSpecial | src/app/api/auth/register/route.ts:12-13 | dropping the digit or the special character from a strong password makes it weak |
| Schema.EnrolledAppend | src/app/api/enrollments/route.ts:181-193 | one new enrollment raises its own class's count by one and no other class's count |
| Schema.AdmissionKeepsCapacity | src/app/api/enrollments/route.ts:181-193 | admitting into a class that still has room keeps every class within capacity |
| Schema.AddUser | src/app/api/auth/register/route.ts:96-107 | `user.create` appends exactly the given row under the next id and keeps the store invariant |
| AdminClasses.CheckFields | src/app/api/admin/classes/route.ts:52-75 | accepts iff all four fields are present, the day is one of the seven names and both times are valid; refusals come in that order |
| AdminClasses.FindConflict | src/app/api/admin/classes/route.ts:78-100 | a conflict is a stored row (other than the excluded id) that the overlap condition hits; none is found iff no such row exists |
| AdminClasses.List | src/app/api/admin/classes/route.ts:6-29 | 401 without the administrator flag; otherwise every row, sorted by the store's order of day names |
| AdminClasses.ListInDayNameOrder | src/app/api/admin/classes/route.ts:24-26 | on stored rows, the listing never puts a day name after one that is lower in string order |
| AdminClasses.PostCheck | src/app/api/admin/classes/route.ts:44-107 | refuses only with 401, the field check's three reasons or TimeSlotTaken; 401 iff not an administrator; each field refusal iff the flag is set and the field check gives it; TimeSlotTaken iff the fields pass and a conflicting row exists; accepted iff none of these apply |
| AdminClasses.Post | src/app/api/admin/classes/route.ts:40-127 | a refused request stores nothing; an accepted one appends exactly the submitted fields under a fresh id (201) |
| AdminClasses.PutCheck | src/app/api/admin/classes/route.ts:142-216 | refuses only with 401, 400 without id, the field check's reasons, TimeSlotTaken or 500; each iff every earlier guard passed and its own condition holds: no id, the field refusal, a conflict other than the class itself, and (500) no row with the id |
| AdminClasses.Put | src/app/api/admin/classes/route.ts:138-237 | a refused request changes nothing; an accepted one stores exactly the submitted name, day and times in the row with that id |
| AdminClasses.DeleteCheck | src/app/api/admin/classes/route.ts:252-268 | refuses only with 401, 400 or 500: 401 iff not an administrator, 400 iff an administrator gives no id, 500 iff an administrator's id names no row; accepted iff the row exists |
| AdminClasses.Delete | src/app/api/admin/classes/route.ts:248-270 | a refused request changes nothing; an accepted one removes the rows with that id |
| AdminClasses.HitsInMinutes | src/app/api/admin/classes/route.ts:84-96 | on valid times, a stored slot is hit iff it contains the new start (start <= s < end) or the new end (start < e <= end), in minutes |
| AdminClasses.Hits | src/app/api/admin/classes/route.ts:84-96 | the overlap condition of the query, on the stored strings; `AdminClasses.HitsInMinutes` states its meaning in minutes |
| AdminClasses.RefusedIffEndpointInside | src/app/api/admin/classes/route.ts:78-107 | a well-formed POST is refused iff some stored class on the same day contains the new start or the new end |
| AdminClasses.BackToBackIsNoConflict | src/app/api/admin/classes/route.ts:86-93 | a class ending exactly at the new start, or starting exactly at the new end, is no conflict |
| AdminClasses.EnclosingSlotAccepted | src/app/api/admin/classes/route.ts:84-96 | a new slot that strictly encloses a stored same-day class is accepted, so stored slots may overlap |
| AdminClasses.UpdateExcludesItself | src/app/api/admin/classes/route.ts:186-216 | re-saving a class is accepted by PUT although its own slot would be a conflict for POST |
| AdminClasses.EndBeforeStartNotChecked | src/app/api/admin/classes/route.ts:44-107 | a slot that ends before it starts is accepted when its day is free |
| AdminClasses.BareSessionRefused | src/app/api/admin/classes/route.ts:8-11 | a session whose user lacks the role and the administrator flag is refused with 401 by every handler of the route |
| ClassForm.FormDaysAreRouteDays | src/components/ClassModal.tsx:26 | the form offers exactly the seven day names the route accepts |
| ClassForm.OpenForm | src/components/ClassModal.tsx:36-45 | the edited class's name, day and times replace the form; without one the form is unchanged |
| ClassForm.ParseTime | src/components/ClassModal.tsx:51-52 | a time parses iff it is a valid "HH:mm" string, giving its minute of the day |
| ClassForm.Submit | src/components/ClassModal.tsx:47-60 | nothing is saved iff both times parse and the end is not after the start; otherwise the form is saved unchanged |
| ClassForm.SavedFormAbutsFreely | src/components/ClassModal.tsx:54-59 | a saved form with valid times has its end after its start, and a class touching it end-to-start is no conflict |
| ClassForm.NewFormDefaults | src/components/ClassModal.tsx:29-34 | a new form is Monday 09:00 to 10:00 with no name; it passes the form's check and is refused by the route only for the missing name |
| ClassesApi.VisibleClasses | src/app/api/classes/route.ts:23-108 | the role's query keeps exactly the visible classes: all for ADMIN, the teacher's own for TEACHER, those with an enrolled child for PARENT |
| ClassesApi.ListClasses | src/app/api/classes/route.ts:9-117 | 401 iff no session, 403 iff an unrecognised role; otherwise the visible classes sorted by day |
| ClassesApi.ListedClassesByRole | src/app/api/classes/route.ts:23-108 | for a recognised role, a class is listed iff it is stored and visible to that role |
| ClassesApi.PostCheck | src/app/api/classes/route.ts:132-150 | refuses only with 401 or 500: 401 iff the role is not ADMIN, 500 iff an administrator names a teacher id with no profile; accepted iff the profile exists |
| ClassesApi.PostIgnoresSchedule | src/app/api/classes/route.ts:140-150 | the outcome does not depend on day, times or capacity: there is no overlap, order or capacity validation |
| ClassesApi.PostClass | src/app/api/classes/route.ts:128-164 | an accepted request stores the submitted fields unchanged under a fresh id; a refused one stores nothing |
| ClassesApi.NothingEnrolledInFreshClass | src/app/api/classes/route.ts:142-150 | a newly created class has no enrollments |
| EnrollmentsApi.VisibleEnrollments | src/app/api/enrollments/route.ts:21-114 | keeps exactly the enrollments the role may see: all, those of the teacher's classes, or those of the parent's children |
| EnrollmentsApi.NewestFirst | src/app/api/enrollments/route.ts:49-51 | a permutation of its input with `createdAt` non-increasing |
| EnrollmentsApi.ListEnrollments | src/app/api/enrollments/route.ts:8-121 | 401 iff no session, 403 iff an unrecognised role; otherwise the visible enrollments, newest first |
| EnrollmentsApi.ListedEnrollmentsByRole | src/app/api/enrollments/route.ts:21-114 | for a recognised role, an enrollment is listed iff it is stored and visible to that role |
| EnrollmentsApi.StudentById | src/app/api/enrollments/route.ts:148-150 | `student.findUnique`: the stored student with the id, or nothing iff no student has it |
| EnrollmentsApi.ClassById | src/app/api/enrollments/route.ts:167-172 | `class.findUnique`: the stored class with the id, or nothing iff no class has it |
| EnrollmentsApi.EnrollCheck | src/app/api/enrollments/route.ts:137-186 | refuses only with 401, 404, 403 or 400: 401 iff no session; 404 iff the student is unknown, or the caller may act for the student and the class is unknown; 403 iff a non-administrator is not the parent; 400 iff the class is full; accepted iff none of these apply |
| EnrollmentsApi.PostEnrollment | src/app/api/enrollments/route.ts:133-216 | a refused request stores nothing; an accepted one appends exactly one (student, class) enrollment under a fresh id and keeps every class within capacity |
| EnrollmentsApi.Admit | src/app/api/enrollments/route.ts:189-193 | the insert appends the row and keeps the store invariant, capacity included |
| EnrollmentsApi.AdmissionRaisesCountWithinCapacity | src/app/api/enrollments/route.ts:181-193 | after an accepted request, the class's count rises by exactly one and stays within `maxStudents` |
| EnrollmentsApi.DuplicateEnrollmentAdmitted | src/app/api/enrollments/route.ts:145-193 | the same student can be enrolled again in the same class while capacity allows |
| EnrollmentsApi.AdmittedOnlyForOwnChild | src/app/api/enrollments/route.ts:159-164 | a non-administrator is admitted only for their own child |
| ScheduleChangesApi.VisibleChanges | src/app/api/schedule-changes/route.ts:21-124 | keeps exactly the requests the role may see: all, those on the teacher's classes, or those on the parent's children |
| ScheduleChangesApi.ChangesNewestFirst | src/app/api/schedule-changes/route.ts:21-124 | a permutation of its input with `createdAt` non-increasing |
| ScheduleChangesApi.ListChanges | src/app/api/schedule-changes/route.ts:8-131 | 401 iff no session, 403 iff an unrecognised role; otherwise the visible requests, newest first |
| ScheduleChangesApi.ListedChangesByRole | src/app/api/schedule-changes/route.ts:21-124 | for a recognised role, a request is listed iff it is stored and visible to that role |
| ScheduleChangesApi.EnrollmentById | src/app/api/schedule-changes/route.ts:158-160 | `enrollment.findUnique`: the stored enrollment with the id, or nothing iff none has it |
| ScheduleChangesApi.RequestCheck | src/app/api/schedule-changes/route.ts:147-177 | refuses only with 401, 404, 403 or 500: 401 iff no session; 404 iff the enrollment is unknown (before ownership); 403 iff a non-administrator is not the student's parent; 500 iff a non-administrator's enrollment names no student; accepted iff an administrator, or the parent |
| ScheduleChangesApi.NewRequest | src/app/api/schedule-changes/route.ts:179-189 | the stored request is PENDING and copies the enrollment, date, old and new times, and reason from the body |
| ScheduleChangesApi.PostChange | src/app/api/schedule-changes/route.ts:143-212 | a refused request stores nothing; an accepted one appends exactly that PENDING request under a fresh id |
| ScheduleChangesApi.RequestIgnoresTimesAndReason | src/app/api/schedule-changes/route.ts:155-189 | the outcome does not depend on the date, the times or the reason: there is no end-after-start, non-empty-reason or future-date check |
| RequestChangePage.Load | src/app/dashboard/request-change/page.tsx:39-74 | one run of the effect from the current page: without a user, the sign-in error and no fetch; an error response shows the server's `error` text, or "Failed to fetch enrollments" when it has none; a non-array body shows the format error; failures keep the list; an array replaces the list and keeps the error; the error is absent afterwards iff it was absent before and the run received an array |
| RequestChangePage.LoadRuns | src/app/dashboard/request-change/page.tsx:39-74 | the effect's runs in order (it runs again whenever the session changes): a last array is the list, and runs that all received arrays leave the error as it was |
| RequestChangePage.LoadErrorSticks | src/app/dashboard/request-change/page.tsx:59-73 | once an error is shown, every later sequence of runs still shows one, because no run clears it |
| RequestChangePage.FirstSessionDecidesError | src/app/dashboard/request-change/page.tsx:67-73 | on a fresh page a signed-in run shows the list and no error; if the session first had no user, the list arrives but the sign-in error stays |
| RequestChangePage.SetField | src/app/dashboard/request-change/page.tsx:110-116 | only the named field takes the new value |
| RequestChangePage.BuildPayload | src/app/dashboard/request-change/page.tsx:76-93 | nothing is sent iff no loaded enrollment has the selected id; otherwise the form fields plus the old times of that enrollment's class |
| RequestChangePage.PayloadSnapshotsSelectedClass | src/app/dashboard/request-change/page.tsx:81-93 | with distinct ids, the payload's old times are the selected enrollment's class times |
| ScheduleChangesPage.LoadChanges | src/app/dashboard/schedule-changes/page.tsx:53-67 | a non-OK response keeps the list and sets the error; a body replaces the list (by the items if an array, otherwise by the empty list) and leaves the error as it was |
| ScheduleChangesPage.LoadAll | src/app/dashboard/schedule-changes/page.tsx:40-51 | after the session effect's loads in order, a last array body is the list, and loads that all got a body leave the error as it was |
| ScheduleChangesPage.LoadErrorSticks | src/app/dashboard/schedule-changes/page.tsx:53-67 | after one failed load, every later sequence of loads still ends with the load error shown, because no success clears it |
| ScheduleChangesPage.Actions | src/app/dashboard/schedule-changes/page.tsx:218 | approve and reject are offered iff the request is PENDING |
| ScheduleChangesPage.ApplyStatus | src/app/dashboard/schedule-changes/page.tsx:84-88 | same length and order; rows with the id take the new status, all others are unchanged |
| ScheduleChangesPage.AfterDecision | src/app/dashboard/schedule-changes/page.tsx:69-93 | a non-OK response leaves the list unchanged; an OK one applies the decided status to the row |
| ScheduleChangesPage.DecidedRowOffersNothing | src/app/dashboard/schedule-changes/page.tsx:84-88 | after a decision, the decided row offers no actions and every other row offers what it did before |
| ScheduleChangesPage.ApplyStatusIdempotent | src/app/dashboard/schedule-changes/page.tsx:84-88 | applying the same decision twice is applying it once |
| ScheduleChangesPage.ApplyStatusAbsentId | src/app/dashboard/schedule-changes/page.tsx:84-88 | a decision on an id not in the list changes nothing |
| ScheduleChangesPage.DecisionsCommute | src/app/dashboard/schedule-changes/page.tsx:84-88 | decisions on two different ids give the same list in either order |
| ScheduleChangesPage.OnlyStatusChanges | src/app/dashboard/schedule-changes/page.tsx:84-88 | a decision changes no field of any row other than its status |
| WeeklyGrid.AddToSet | src/app/admin/schedule/page.tsx:31-35 | `Set.add`: membership gains the value and repeats are never created |
| WeeklyGrid.CollectTimeSlots | src/app/admin/schedule/page.tsx:31-38 | the rows are exactly the start and end instants of the classes, strictly ascending |
| WeeklyGrid.CellIndex | src/app/admin/schedule/page.tsx:60-64 | the cell shows the first class in list order with that day and start instant, or nothing if there is none |
| WeeklyGrid.ShadowedNeverShown | src/app/admin/schedule/page.tsx:60-63 | a class with the same day and start as an earlier class is never shown |
| WeeklyGrid.OutOfWeekNeverShown | src/app/admin/schedule/page.tsx:4 | a class whose day is outside 0..6 is never shown |
| WeeklyGrid.ShownExactlyOnce | src/app/admin/schedule/page.tsx:55-64 | a class not shadowed by an earlier one is shown in exactly one cell: its day and its start row |
| WeeklyGrid.Lines | src/app/admin/schedule/page.tsx:74-76 | one line per enrollment of the class, in order; the parent name only when asked for |
| WeeklyGrid.Cell | src/app/admin/schedule/page.tsx:60-80 | a cell has content iff some class is found for it, and shows that class with all its enrollments |
| WeeklyGrid.Rows | src/app/admin/schedule/page.tsx:55-80 | one row per time slot and seven columns, Sunday first, each the cell of that day and slot |
| WeeklyGrid.AdminWeekView | src/app/admin/schedule/page.tsx:27-80 | the grid's slots are the classes' distinct instants, ascending, and its rows are the cells |
| WeeklyGrid.OwnView | src/app/dashboard/schedule/page.tsx:34-38 | a class keeps all its fields and only the parent's own children among its enrollments |
| WeeklyGrid.ClassesWithDetails | src/app/dashboard/schedule/page.tsx:16-49 | an administrator gets the classes unchanged; anyone else gets, in list order, the classes with an enrollment of an own child, each restricted to those enrollments (a filter then a map) |
| WeeklyGrid.ParentClassesAreOwnViews | src/app/dashboard/schedule/page.tsx:16-38 | a parent sees a class view iff it is the restriction of a listed class that has an enrollment of an own child |
| WeeklyGrid.ParentSeesOnlyOwnChildren | src/app/dashboard/schedule/page.tsx:18-38 | every class a parent sees has at least one enrollment, and all of its enrollments are the parent's children |
| WeeklyGrid.DashboardSchedule | src/app/dashboard/schedule/page.tsx:51-129 | no session redirects to sign-in with no grid; otherwise the grid of the visible classes, with the title and parent names for an administrator only |
| WeeklyGrid.ParentNameOnlyForAdmin | src/app/dashboard/schedule/page.tsx:103-129 | a listed enrollment shows its parent's name iff the viewer is an administrator |
| DashboardStats.TeacherProfileOf | src/app/api/dashboard/stats/route.ts:44-48 | the teacher's profile, or nothing iff the user has none |
| DashboardStats.ComputeStats | src/app/api/dashboard/stats/route.ts:12-124 | 401 iff no session. ADMIN: class count, student count, PENDING count. TEACHER with a profile: the same three restricted to their classes. TEACHER without a profile, or an unrecognised role: an empty object. PARENT: own enrollments, upcoming own classes, own PENDING requests |
| DashboardStats.PendingOf | src/app/api/dashboard/stats/route.ts:20-124 | a pending count exists iff the response is not an error and not the empty object |
| DashboardStats.OwnCountsWithinTotals | src/app/api/dashboard/stats/route.ts:23-121 | a teacher's or parent's pending count never exceeds the administrator's, and a teacher's class count never exceeds the total |
| DashboardStats.SettledRequestNotCounted | src/app/api/dashboard/stats/route.ts:28-32 | adding an APPROVED, REJECTED or CANCELLED request changes no role's stats |
| DashboardStats.PendingRequestCountedForTeacher | src/app/api/dashboard/stats/route.ts:66-76 | a new PENDING request on one of the teacher's classes raises their pending count by one |
| DashboardStats.UpcomingFallsOverTime | src/app/api/dashboard/stats/route.ts:92-103 | as `now` advances, a parent's upcoming-class count never rises |
| Registration.RegisterCheck | src/app/api/auth/register/route.ts:28-90 | refuses only with the reasons below, each iff all earlier guards passed and its own condition holds: a missing field; an invalid email; an invalid phone; AccountExists when a user shares the email or phone; for PARENT, ParentNotVerified when no unregistered authorised student has both parent details; 500 for a role that is neither PARENT nor TEACHER nor ADMIN; accepted iff none apply |
| Registration.NewChildren | src/app/api/auth/register/route.ts:109-131 | every created student belongs to the new user, with consecutive fresh ids |
| Registration.NewChildrenOnePerMatch | src/app/api/auth/register/route.ts:110-131 | exactly one student per matching unregistered authorised student, in order, with the same name and grade |
| Registration.MarkRegistered | src/app/api/auth/register/route.ts:133-139 | the authorised-student table keeps its length |
| Registration.MarkRegisteredEffect | src/app/api/auth/register/route.ts:133-139 | each matching row becomes registered to the new user; others are untouched; no row still awaits the parent afterwards |
| Registration.Register | src/app/api/auth/register/route.ts:22-168 | a refused request changes nothing. An accepted one adds the user (verified iff not TEACHER); for PARENT, the children and the registration marks; for TEACHER, a PENDING profile with no subjects. The response has no password |
| Registration.CreateAccount | src/app/api/auth/register/route.ts:96-152 | the writes of an accepted registration: the user (verified iff not TEACHER), then the parent's children and marks, or the teacher's PENDING profile, with the id counter advanced past them all |
| Registration.AdmitChildren | src/app/api/auth/register/route.ts:109-141 | the students table gains exactly the new children and the authorised rows are marked |
| Registration.ChildrenLoop | src/app/api/auth/register/route.ts:122-140 | the loop computes the same children and marked rows as their specifications |
| Registration.AddTeacherProfile | src/app/api/auth/register/route.ts:144-152 | the profile is appended under the next id |
| Registration.PasswordStrengthNotChecked | src/app/api/auth/register/route.ts:22-155 | the outcome does not depend on the password beyond its presence, so weak passwords are accepted |
| Registration.WeakPasswordAccepted | src/app/api/auth/register/route.ts:8-20 | a body accepted with the strong "Passw0rd!" is accepted with the weak "a" as well, since the handler never calls `isPasswordStrong` |
| Registration.AdministratorSelfRegistration | src/app/api/auth/register/route.ts:71-107 | a body accepted as TEACHER is also accepted as ADMIN |
| Registration.SecondRegistrationRefused | src/app/api/auth/register/route.ts:54-68 | once a user with the email exists, the same registration is refused with AccountExists |
| Administrators.ProfileOf | src/app/api/admin/administrators/route.ts:29-33 | the caller's administrator profile, or nothing iff there is none |
| Administrators.Gate | src/app/api/admin/administrators/route.ts:25-36 | 401 iff the role is not ADMIN; passes iff the caller's profile lists MANAGE_ADMINS; otherwise 403 |
| Administrators.ListAdministrators | src/app/api/admin/administrators/route.ts:20-51 | the gate's refusal, or every profile newest first |
| Administrators.PostCheck | src/app/api/admin/administrators/route.ts:69-115 | refuses only with the gate's 401/403, MissingFields, InvalidPermissions or AccountExists; each of the last three iff the gate passed and every earlier guard passed: a missing field or falsy permissions; permissions not an array of the six names; a user with the same email or phone |
| Administrators.PostAdministrator | src/app/api/admin/administrators/route.ts:64-157 | an accepted request adds an ADMIN user, verified, and a profile with the permissions and createdBy the caller; a refused one changes nothing |
| Administrators.AddAdminProfile | src/app/api/admin/administrators/route.ts:135-141 | `admin.create` appends exactly the given profile under the next id and keeps the store invariant |
| Administrators.PutCheck | src/app/api/admin/administrators/route.ts:168-228 | refuses only with the gate's reasons, IdRequired, InvalidPermissions, CannotModifySelf or 500; each iff the earlier guards passed and its condition holds: no id; invalid permissions; the id is the caller's; (500) no profile has the id; accepted iff the profile exists |
| Administrators.SetPermissions | src/app/api/admin/administrators/route.ts:214-228 | the profile table keeps its length |
| Administrators.PutAdministrator | src/app/api/admin/administrators/route.ts:168-228 | a refused request changes nothing; an accepted one replaces the permissions of the profiles of that user |
| Administrators.OwnPermissionsNeverChange | src/app/api/admin/administrators/route.ts:207-212 | an accepted update never changes the caller's own profile, and changes only the permissions of the target's |
| Administrators.DeleteCheck | src/app/api/admin/administrators/route.ts:241-287 | refuses only with the gate's reasons, IdRequired, CannotDeleteSelf or 500; each iff the earlier guards passed and its condition holds: no id; the id is the caller's; (500) the profile or the user with the id is missing |
| Administrators.DeleteAdministrator | src/app/api/admin/administrators/route.ts:241-287 | an accepted request removes both the profile and the user with that id |
| Administrators.CallerSurvivesDeletion | src/app/api/admin/administrators/route.ts:269-287 | an accepted deletion keeps the caller's user and profile |
| Administrators.PermissionsWhitelist | src/app/api/admin/administrators/route.ts:8-15 | the empty list and the list of all six names are valid; names match exactly (a lower-case or truncated name is refused); a list is valid iff each of its parts is, so one unknown name anywhere refuses it; a non-array or falsy value is never valid |
| Administrators.ValidPermissions | src/app/api/admin/administrators/route.ts:93 | the permission test; `Administrators.PermissionsWhitelist` states what it accepts |
| Administrators.BareSessionRefused | src/app/api/admin/administrators/route.ts:22-27 | a session whose user lacks the role and the administrator flag is refused with 401 by every handler of the route |
| AuthorizedStudents.ListAuthorized | src/app/api/admin/students/route.ts:8-22 | 401 unless ADMIN; otherwise every row, newest first |
| AuthorizedStudents.RowById | src/app/api/admin/students/route.ts:173-176 | the row `update` targets: it has the id and is in the table; there is none iff no row has the id |
| AuthorizedStudents.PostCheck | src/app/api/admin/students/route.ts:37-92 | refuses only with 401, MissingFields, InvalidEmail, InvalidPhone or DuplicateParentDetails; each iff the earlier guards passed and its condition holds: a field is empty; the email fails the pattern; the phone fails the pattern; a row has the same parent email AND phone |
| AuthorizedStudents.NewRow | src/app/api/admin/students/route.ts:94-104 | the stored row carries the six submitted fields, the next id and `now`, and is unlinked and unregistered |
| AuthorizedStudents.PostAuthorized | src/app/api/admin/students/route.ts:32-106 | an accepted request stores the six fields as a new, unlinked, unregistered row; a refused one stores nothing |
| AuthorizedStudents.PutCheck | src/app/api/admin/students/route.ts:122-183 | refuses only with 401, IdRequired, MissingFields, DuplicateParentDetails or 500; each iff the earlier guards passed and its condition holds: no id; a field empty; another row has the same pair; (500) no row has the id; no format check |
| AuthorizedStudents.Updated | src/app/api/admin/students/route.ts:173-183 | the six submitted fields replace the row's; id, link, registration and creation time are kept |
| AuthorizedStudents.UpdateRows | src/app/api/admin/students/route.ts:173-183 | the table keeps its length |
| AuthorizedStudents.PutAuthorized | src/app/api/admin/students/route.ts:117-187 | a refused request changes nothing and answers the reason; an accepted one replaces the row with that id by its update and answers with exactly the old row updated with the body |
| AuthorizedStudents.DeleteCheck | src/app/api/admin/students/route.ts:201-217 | refuses only with 401, 400 or 500: 401 iff not ADMIN, 400 iff no id, 500 iff no row has the id; accepted iff the row exists |
| AuthorizedStudents.DeleteAuthorized | src/app/api/admin/students/route.ts:196-219 | an accepted request removes the row with that id |
| AuthorizedStudents.PostKeepsParentPairsUnique | src/app/api/admin/students/route.ts:78-104 | if no two rows shared a parent email and phone before a creation, none do after it |
| AuthorizedStudents.PutKeepsParentPairsUnique | src/app/api/admin/students/route.ts:155-183 | the same holds for an update, because the duplicate search skips only the updated row |
| AuthorizedStudents.PutSkipsOwnRow | src/app/api/admin/students/route.ts:146-172 | an update keeping a row's own parent details is not a duplicate of itself, although creating the same details again is refused |
| AuthorizedStudents.PutSkipsFormats | src/app/api/admin/students/route.ts:58-75 | with all fields present, an update with an invalid email or phone is accepted, while creation refuses it with InvalidEmail or InvalidPhone |
| AuthorizedStudents.BareSessionRefused | src/app/api/admin/students/route.ts:10-14 | a session whose user lacks the role and the administrator flag is refused with 401 by every handler of the route |
| AuthorizedParents.ListParents | src/app/api/admin/parents/route.ts:8-24 | 401 unless ADMIN; otherwise every parent, newest first, each with exactly its linked students |
| AuthorizedParents.PostCheck | src/app/api/admin/parents/route.ts:40-78 | refuses only with 401, MissingFields, StudentsRequired or ParentExists; each iff the earlier guards passed and its condition holds: a parent field empty; students not a non-empty array; a parent shares the email OR the phone |
| AuthorizedParents.NewParent | src/app/api/admin/parents/route.ts:83-89 | the stored parent carries the submitted name, email and phone, the next id and `now`, no decoded students or classes, and is unregistered |
| AuthorizedParents.LinkedRows | src/app/api/admin/parents/route.ts:92-103 | one student per entry, in order, linked to the parent, unregistered, with the entry's name, grade and class |
| AuthorizedParents.PostParent | src/app/api/admin/parents/route.ts:35-111 | an accepted request stores one parent and one linked student per entry, and answers with as many students as were submitted; a refused one stores nothing |
| AuthorizedParents.DeleteCheck | src/app/api/admin/parents/route.ts:127-144 | refuses only with 401, 400 or 500: 401 iff not ADMIN, 400 iff no id, 500 iff no parent has the id; accepted iff the parent exists |
| AuthorizedParents.DeleteParent | src/app/api/admin/parents/route.ts:122-146 | an accepted request removes the parent row |
| AuthorizedParents.PostKeepsParentDetailsDistinct | src/app/api/admin/parents/route.ts:64-89 | if no two parents shared an email or a phone before a creation, none do after it |
| AuthorizedParents.EitherDetailRefuses | src/app/api/admin/parents/route.ts:64-78 | sharing only the email, or only the phone, is enough to refuse |
| AuthorizedParents.CreatedStudentsAreTheLinkedOnes | src/app/api/admin/parents/route.ts:83-108 | after creation, the students linked to the new parent are exactly the created ones |
| AuthorizedParents.BareSessionRefused | src/app/api/admin/parents/route.ts:10-14 | a session whose user lacks the role and the administrator flag is refused with 401 by every handler of the route |
| ParentForm.OpenForm | src/components/ParentModal.tsx:30-38 | the edited parent's name, email and phone replace the form; without one the form is unchanged |
| ParentForm.Submit | src/components/ParentModal.tsx:40-55 | an email alert iff the email fails; a phone alert iff the email passes and the phone fails; the form is saved unchanged iff both pass |
| ParentForm.SavedFormShape | src/components/ParentModal.tsx:44-54 | a saved form's email matches the pattern and its phone has at least 8 characters |
| ParentForm.EmptyFormRefused | src/components/ParentModal.tsx:42-47 | the empty form gets the email alert and is not saved |
| ListToggle.Toggle | src/components/StudentModal.tsx:36-43 | the item ends up on the list iff it was not on it; every other item's membership is unchanged; an absent item is appended at the end |
| ListToggle.ToggleKeepsOthersInOrder | src/components/StudentModal.tsx:36-43 | leaving out the toggled item, the list is the same before and after, in the same order |
| ListToggle.ToggleTwiceRestores | src/components/StudentModal.tsx:36-43 | toggling an absent item twice gives back the list |
| ListToggle.ToggleKeepsNoRepeats | src/components/StudentModal.tsx:36-43 | a list without repeats stays without repeats |
| StudentForm.OpenForm | src/components/StudentModal.tsx:20-29 | the edited student's name, grade, parent and classes replace the form; without one the form is unchanged |
| StudentForm.ToggleClass | src/components/StudentModal.tsx:36-43 | only the class list changes, by the toggle |
| StudentForm.ClicksStayWithinOffered | src/components/StudentModal.tsx:10 | clicking only the offered checkboxes keeps the class list repeat-free and within the three offered classes |
| JoinForm.SetField | src/app/join/page.tsx:46-52 | the named field takes the value; every other field, the subjects and the resume are unchanged |
| JoinForm.SetFieldsCommute | src/app/join/page.tsx:46-52 | edits of two different fields give the same form in either order |
| JoinForm.ToggleSubject | src/app/join/page.tsx:54-61 | only the subject list changes, by the toggle |
| JoinForm.FileChange | src/app/join/page.tsx:63-69 | the resume is the first selected file, or none when no file is selected; nothing else changes |
| SeedScript.SeedRecord | scripts/seed-authorized-students.ts:73-81 | the created record carries the entry's parent name, email, phone, its one student and its class list, unregistered |
| SeedScript.SeedStep | scripts/seed-authorized-students.ts:60-89 | one record is created iff the store call does not throw and no record has the same email, phone and student |
| SeedScript.SeedRunAppends | scripts/seed-authorized-students.ts:58-90 | the run only appends records |
| SeedScript.SeedRunCovers | scripts/seed-authorized-students.ts:58-90 | after the run, every entry whose store call did not throw has its record, so a failure does not stop later entries |
| SeedScript.SeedRunIdle | scripts/seed-authorized-students.ts:62-86 | when every entry already has its record, a run creates nothing |
| SeedScript.SecondRunCreatesNothing | scripts/seed-authorized-students.ts:62-86 | after a run without failures, a second run over the same data creates nothing |
| SeedScript.AddParent | scripts/seed-authorized-students.ts:73-81 | `create` appends the record under the next id |
| SeedScript.SeedAuthorizedParents | scripts/seed-authorized-students.ts:54-90 | the loop leaves the table and the id counter exactly as the step-by-step specification does |
| ConvertScript.ParentUser | scripts/convert-authorized-parents.ts:24-34 | the user is PARENT, verified and ACTIVE, with the parent's name, email and phone |
| ConvertScript.ChildRecords | scripts/convert-authorized-parents.ts:37-48 | one record per listed child, in order, linked to the new user |
| ConvertScript.MarkConverted | scripts/convert-authorized-parents.ts:51-57 | the parent's row becomes registered to the user; other rows are unchanged |
| ConvertScript.ConvertOne | scripts/convert-authorized-parents.ts:18-64 | a parent whose email already has a user changes nothing; otherwise one user, its child records and the mark |
| ConvertScript.ConvertOneTakesEmail | scripts/convert-authorized-parents.ts:18-34 | one parent's pass only adds users, and afterwards some user has the parent's email: the created one, or the one that made the creation fail |
| ConvertScript.ConvertRunAddsUsers | scripts/convert-authorized-parents.ts:17-65 | the run only adds users |
| ConvertScript.EveryPendingParentHasAccount | scripts/convert-authorized-parents.ts:17-65 | after the run, every unregistered parent's email has an account, so a failure does not stop the other parents |
| ConvertScript.RegisteredParentUntouched | scripts/convert-authorized-parents.ts:9-13 | a parent that was not picked up keeps its row unchanged |
| ConvertScript.ConvertedParent | scripts/convert-authorized-parents.ts:24-57 | a converted parent has exactly one user with its email, and that user is PARENT, verified and ACTIVE; the parent is marked with the user's id; one child record per listed student, each linked to the user |
| ConvertScript.AddParentStudent | scripts/convert-authorized-parents.ts:41-47 | `create` appends the record under the next id |
| ConvertScript.AddChildren | scripts/convert-authorized-parents.ts:40-48 | the inner loop appends exactly the child records |
| ConvertScript.MarkParent | scripts/convert-authorized-parents.ts:51-57 | the update marks the parent and keeps the store invariant |
| ConvertScript.ConvertParent | scripts/convert-authorized-parents.ts:18-64 | one pass of the outer loop does exactly what the per-parent specification says |
| ConvertScript.ConvertAuthorizedParents | scripts/convert-authorized-parents.ts:6-65 | the loop over the unregistered parents leaves the store exactly as the step-by-step specification does |

## Left out

- Rendering, routing, redirects and HTTP plumbing are not modelled. Only the data each page or
  handler computes is.
- Sessions come in as a parameter, and `getServerSession` is not modelled. So are bcrypt hashes
  and the random temporary passwords. The clock is the parameter `now`.
- JSON encoding is not modelled. `studentsJson`, `enrolledClassesJson` and `permissionsJson` are
  taken as already-decoded sequences. The seeding script compares JSON strings, and the model
  compares the decoded lists.
- Dates and times of day:
  - Instants are integers, and locale formatting of times and dates is left out.
  - `ClassForm.ParseTime` reads a time that is not "HH:mm" as an invalid date. Other strings that
    `new Date` would accept are not modelled.
- Strings are sequences of characters. JavaScript's UTF-16 lengths and its regular-expression
  whitespace class are approximated by `Text.IsJsSpace`.
- The model is sequential. The races between a check and the following insert, and transaction
  isolation, are not modelled.
- Store errors other than those named are not modelled: exceptions beyond a missing row on
  update or delete, a missing teacher profile, and a unique email. Every other thrown error would
  be a 500.
- Database cascades are not modelled. Deleting an authorised parent leaves its students, and
  deleting a class leaves its enrollments. The relations' cascade rules are not part of this
  model.
- The schedule-change `PATCH` handler and the marketing, contact and list pages are not part of
  this model.
- The administrator-creation script is not part of this model either: it is interactive I/O.
- The join page's submit only shows a message and is not modelled. The student form's submit
  hands on its state unchanged, and so needs no member.
- The columns the store fills in itself are assumed, because the schema is not part of this
  model: `parentName`, `parentEmail` and `parentPhone` of authorised students created through
  the parent route are empty, and `studentsJson` of a parent created there is an empty list.
- Sessions of the administrator routes: the class, administrator, authorised-student and
  authorised-parent routes under `admin/` call `getServerSession()` without the options whose
  session callback puts `id`, `role` and `isAdmin` on the user; every other route passes them.
  The model gives all routes the same session with those fields, so it assumes the admin routes
  see them too. How the sign-in library fills a session without the options is not part of this
  model; if it leaves those fields out, every handler of those routes answers 401, as
  `BareSessionRefused` in each of the four modules shows.
- One class table, two shapes: the administrator class route and the class, enrollment and
  schedule routes both write the store's single `class` table, but with incompatible columns (a
  name, a day name and "HH:mm" strings against a subject, a day number and instants). The model
  keeps them as two tables, `namedClasses` and `classes`, so a class created through one route
  is not seen by the other. A time-slot conflict with a class created through the other route is
  therefore not modelled.
- Registration.RegisterCheck: a body without `role` is treated like an unrecognised role and
  refused with 500. The store's default for the `role` column is not part of this model; with a
  default, such a user would be created with that role instead, and with the PARENT default
  without the pre-authorisation check, which only runs when the body says PARENT.
- ConvertScript.ConvertOne: models a failing parent only as one whose email already has a user
  (the unique email column). A failure after the user is created, such as a malformed
  `studentsJson`, would leave a partial result, and that is not modelled.
- SeedScript.SeedStep: which entries throw is a parameter, not derived from the store.
- ConvertScript.RegisteredParentUntouched: assumes that no picked-up parent shares the id. The
  store guarantees unique ids, but `Schema.Database.Valid` does not state it for this table.
- Registration.NewChildren: its own contract states only the owner and the id range. The
  one-per-match content is stated by `Registration.NewChildrenOnePerMatch`.
- Registration.MarkRegistered, Administrators.SetPermissions and AuthorizedStudents.UpdateRows:
  their own contracts state only the length. The per-row effect is stated by
  `Registration.MarkRegisteredEffect`, by `Administrators.OwnPermissionsNeverChange`, and, for
  `AuthorizedStudents.Updated`, by `Common.Replace`.
