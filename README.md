# Pashudrishti core in Dafny

Pashudrishti is a veterinary case-management web application. Farmers
submit cases about sick animals. Veterinarians accept, diagnose and resolve
those cases. An administrator approves or suspends doctors and accounts, and
keeps the disease catalogue.

This project models the application's core in Dafny and proves properties of
that model. The core has two halves.

**Server.** These are the Express handlers of the four controllers and the
token guard:
- `authController.js`: register and login;
- `doctorController.js`: the doctor dashboard, the case inbox, accept,
  diagnosis, resolve, visit requests and the case history;
- `userController.js`: the farmer dashboard, case submission, the simulated
  diagnosis, my cases, the doctor directory, the profile and messages;
- `adminController.js`: statistics, doctor and user moderation, diseases and
  notifications;
- `middleware/auth.js`: the bearer-token guard and token issue.

The MySQL store is a `Database` class (module `Store`) with one field per
table. Each table is a map from row id to row, plus the next auto-increment
id. Handlers that write are methods that modify the database. Their
postconditions give the whole new state as a function of the old one. Read
handlers are functions over a snapshot (`Tables`). Their postconditions say
which rows are returned, that each row appears once, and in which order.
They say this in terms that fit every answer MySQL may give, so the model
does not fix one answer for ties.

The modules are:
- `Relational`: scans, filters, counting, grouping, sorting and `LIMIT`;
- `Text`: the JavaScript string operations the core uses;
- `Store`: the rows and the database.

**Client.** These are six React screens:
- the doctor's appointments: approve or cancel, and the upcoming and
  completed lists;
- the farmer's doctor finder: search and specialty filter;
- the doctor's case list: search, counters, status badge and severity colour;
- the case submission form: validation and the submit, complete and reset
  steps;
- the farmer's profile screen: edit buffer, save and cancel;
- the doctor's profile screen: the same, plus the header toggle.

A screen whose state changes is a class whose fields are the component's
state, and each handler is a method. Pure filters and lookups are functions.

Calls into libraries the model cannot see are parameters (listed under
"Left out").

The model follows the code as written. Four places where it may surprise
a reader:
- acceptCase writes the status `in_progress` (modelled as
  `CaseStatus.InProgress`), while the client screens spell it `in-progress`.
- Login never reads `users.status`, so a suspended account still signs in,
  which `AdminController.SuspendedUserStillLogsIn` states.
- The admin's disease statistics have no `ORDER BY`, so which ten groups
  come back is not fixed by the query.
- The farmer's dashboard ranks by `rating` but the directory by
  `ABS(rating)`, so the dashboard list is the five highest-rated approved
  doctors. That list need not be the first five entries of the directory.

## Model

| member | source | states |
|---|---|---|
| Store.FirstUserByEmail | server/src/controllers/authController.js:51-60 | `users[0]` of the email lookup: none exactly when no row has the email; otherwise a row with that email whose id is the smallest among them |
| Store.FirstDoctorOf | server/src/controllers/authController.js:71-76 | `doctors[0]` of the user's doctor rows: none exactly when the account has none; otherwise its row with the smallest id |
| Store.FirstDoctorSameOwners | server/src/controllers/adminController.js:61-64 | updating doctor rows without changing their owners keeps which row comes first for each account |
| AuthMiddleware.BearerToken | server/src/middleware/auth.js:8-10 | the second space-separated field of the header, kept only when it is non-empty: it starts after the first space and runs to the next space or the end |
| AuthMiddleware.BearerTokenOf | server/src/middleware/auth.js:8 | a space-free scheme, one space and a non-empty space-free token yield exactly that token |
| AuthMiddleware.Authenticate | server/src/middleware/auth.js:6-20 | no usable token is 401 "No token provided"; a token that does not decode is 401 "Invalid token"; otherwise the decoded claims go on as the request's user |
| AuthMiddleware.MissingHeaderRejected | server/src/middleware/auth.js:8-11 | a request without an Authorization header is rejected with 401 "No token provided" |
| AuthMiddleware.SchemeOnlyRejected | server/src/middleware/auth.js:8-11 | "Bearer" alone, or "Bearer" followed by two spaces, is rejected whatever follows |
| AuthMiddleware.GenerateToken | server/src/middleware/auth.js:22-31 | the token is the signing function applied to exactly id, email, role and the issue second, with no expiry |
| AuthMiddleware.SameSecondSameToken | server/src/middleware/auth.js:22-31 | two tokens for the same user issued within the same second are equal |
| AuthMiddleware.TokenPayload | server/src/middleware/auth.js:22-28 | the payload carries the user's id, email and role, and `iat` is the current time in whole seconds |
| AuthMiddleware.IssuedTokenAuthenticates | server/src/middleware/auth.js:14-30 | a token from generateToken, sent back as "<scheme> <token>", passes the guard with the same id, email and role |
| AuthController.Register | server/src/controllers/authController.js:5-44 | no email is 500 with no change; a taken email is 400 "User already exists" with no change; a missing name or password is 500 with no change; otherwise one users row is inserted (role defaults to user, phone to "") and the reply is 201 with the new id and a token; unique emails are preserved |
| AuthController.AddUser | server/src/controllers/authController.js:22-39 | the new row is inserted under the next id, nothing else changes, the reply is 201 with that id and row, and unique emails are preserved |
| AuthController.InsertKeepsEmailsUnique | server/src/controllers/authController.js:10-26 | inserting a row whose email is not taken keeps emails unique |
| AuthController.Login | server/src/controllers/authController.js:46-97 | a missing email or password is 500; an unknown email or a wrong password is 401 "Invalid credentials"; a doctor account whose first doctor row is not approved is 403; otherwise 200 with a session for the first user having that email |
| AuthController.UnknownEmailLooksLikeWrongPassword | server/src/controllers/authController.js:56-67 | an unknown email and a wrong password get identical replies |
| AuthController.DoctorWithoutProfileLogsIn | server/src/controllers/authController.js:70-79 | a doctor account with no doctor row at all is not held back |
| AuthController.LoginIgnoresAccountStatus | server/src/controllers/authController.js:46-97 | changing an account's status never changes the login reply |
| AuthController.RegisterThenLogin | server/src/controllers/authController.js:5-97 | after a successful register, login with the same email and password succeeds for the new id, unless doctor approval holds it back |
| DoctorController.DoctorIdOf | server/src/controllers/doctorController.js:8 | the scalar subquery: no row, the only row's id, or several rows (a query error) |
| DoctorController.CureRate | server/src/controllers/doctorController.js:22-24 | 0 without assigned cases; otherwise resolved/assigned×100 rounded half up, and at most 100 when resolved ≤ assigned |
| DoctorController.MonthlyPerformance | server/src/controllers/doctorController.js:26-33 | at most 12 distinct months, each with its number of the doctor's resolved cases; fewer than 12 means every month with a resolved case of the doctor is listed |
| DoctorController.DoctorDashboard | server/src/controllers/doctorController.js:3-46 | 500 exactly when the subquery has several rows; otherwise the assigned, resolved and pending counts, with resolved+pending ≤ assigned and cureRate ≤ 100; no doctor row gives all zeros |
| DoctorController.CaseRequests | server/src/controllers/doctorController.js:48-66 | exactly the unassigned cases whose owner and animal exist, each once, newest first |
| DoctorController.CaseHistory | server/src/controllers/doctorController.js:144-171 | 500 exactly when the subquery has several rows; otherwise the cases assigned to the requester's doctor row, narrowed by the search when it is non-empty, newest first |
| DoctorController.SearchNarrowsHistory | server/src/controllers/doctorController.js:157-160 | every row found with a search is also found without one |
| DoctorController.Accepted | server/src/controllers/doctorController.js:82-85 | that case gets the doctor and status in progress; every other row and the id counter are unchanged |
| DoctorController.AcceptOverrides | server/src/controllers/doctorController.js:82-85 | a second acceptance by any doctor replaces the first |
| DoctorController.AcceptLeavesInbox | server/src/controllers/doctorController.js:52-58 | an accepted case is no longer in the inbox (see also lines 82-85) |
| DoctorController.AcceptJoinsHistory | server/src/controllers/doctorController.js:82-85 | a case accepted by the requester's only doctor row shows in their history (see also lines 149-164) |
| DoctorController.AcceptCase | server/src/controllers/doctorController.js:68-92 | 404 with no change without a doctor row; otherwise the case is accepted by the first doctor row and the reply is 200 |
| DoctorController.Diagnosed | server/src/controllers/doctorController.js:99-102 | diagnosis, medicine and notes of that case are set; nothing else changes |
| DoctorController.DiagnosisKeepsLifecycle | server/src/controllers/doctorController.js:99-102 | status, owner and assigned doctor of every case are unchanged |
| DoctorController.AddDiagnosis | server/src/controllers/doctorController.js:94-109 | a missing body field is 500 with no change; otherwise the diagnosis is written and the reply is 200 |
| DoctorController.Resolved | server/src/controllers/doctorController.js:115-118 | that case's status becomes resolved; nothing else changes |
| DoctorController.ResolveIdempotent | server/src/controllers/doctorController.js:115-118 | resolving a resolved case changes nothing; resolving twice equals resolving once |
| DoctorController.MarkCaseResolved | server/src/controllers/doctorController.js:111-125 | the case is resolved from any status and the reply is 200 |
| DoctorController.RequestPhysicalVisit | server/src/controllers/doctorController.js:127-142 | a missing body field is 500 with no change; otherwise one visit_requests row is inserted and the reply is 201 |
| UserController.DashboardDoctors | server/src/controllers/userController.js:22-29 | at most five approved doctors with existing users, each once, by rating descending; no approved doctor left out rates higher than one listed; fewer than five means all are listed |
| UserController.UserDashboard | server/src/controllers/userController.js:3-41 | the requester's total, pending and resolved case counts, with pending+resolved ≤ total |
| UserController.AIPrediction | server/src/controllers/userController.js:77-88 | one of the five fixed predictions, with confidence between 65 and 88 |
| UserController.SubmitCase | server/src/controllers/userController.js:43-75 | a missing animal type or location is 500 with no change; missing symptoms is 500 after the Animals row is already written; otherwise one Animals row and one pending case row owned by the requester and linked to that animal (placeholder image when none is given), and 201 with the new case id |
| UserController.SubmittedCaseShape | server/src/controllers/userController.js:57-61 | the inserted case is pending, unassigned, undiagnosed, owned by the submitter and linked to the new animal |
| UserController.MyCases | server/src/controllers/userController.js:90-110 | exactly the requester's cases, each once, newest first, the animal and doctor fields present only when the joined rows exist |
| UserController.NearbyDoctors | server/src/controllers/userController.js:112-128 | exactly the approved doctors with existing users, each once, by absolute rating descending |
| UserController.DashboardDoctorsListed | server/src/controllers/userController.js:22-29 | every doctor on the dashboard is in the directory (see also lines 114-121) |
| UserController.GetProfile | server/src/controllers/userController.js:130-144 | the requester's row without password or role; 200 with no body when the row is missing |
| UserController.ProfileUpdated | server/src/controllers/userController.js:151-154 | only the name and phone of that row change |
| UserController.ProfileUpdateKeepsCredentials | server/src/controllers/userController.js:151-154 | no email, password, role or status changes |
| UserController.UpdateProfile | server/src/controllers/userController.js:146-161 | a missing name or phone is 500 with no change; otherwise the update is applied and the reply is 200 |
| UserController.SendMessage | server/src/controllers/userController.js:163-178 | a missing field is 500 with no change; otherwise one message from the requester is inserted and the reply is 201 |
| UserController.GetMessages | server/src/controllers/userController.js:180-198 | exactly the case's messages whose sender exists, each once, oldest first |
| UserController.MessagesIgnoreRequester | server/src/controllers/userController.js:182-190 | every requester sees the same thread |
| UserController.SentMessageInThread | server/src/controllers/userController.js:168-171 | a message just sent shows in its case's thread (see also lines 185-190) |
| AdminController.DashboardStats | server/src/controllers/adminController.js:3-39 | role-user accounts, approved doctors, all cases, pending and resolved cases, with pending+resolved ≤ total |
| AdminController.CasesByMonth | server/src/controllers/adminController.js:11-16 | at most 12 months, strictly latest first, each with its case count; a month with cases that is left out is older than every month listed; fewer than 12 means all are listed |
| AdminController.DiseaseStats | server/src/controllers/adminController.js:18-24 | at most ten distinct disease names, each with its number of cases (NULL names dropped); fewer than ten means all are listed |
| AdminController.Doctors | server/src/controllers/adminController.js:41-55 | every doctor row with an existing user, of any status, each once, newest first |
| AdminController.DoctorApproved | server/src/controllers/adminController.js:61-64 | that doctor row becomes approved with approval date now; nothing else changes |
| AdminController.DoctorSuspended | server/src/controllers/adminController.js:77-80 | that doctor row becomes suspended and keeps its approval date; nothing else changes |
| AdminController.ApprovedDoctorLogsIn | server/src/controllers/adminController.js:61-64 | after approval, the account whose first doctor row it is signs in |
| AdminController.SuspendedDoctorRefused | server/src/controllers/adminController.js:77-80 | after suspension, that account is refused with 403 |
| AdminController.ApprovedFirstRow | server/src/controllers/adminController.js:61-64 | approving an account's first doctor row leaves that account unblocked at login |
| AdminController.SuspendedFirstRow | server/src/controllers/adminController.js:77-80 | suspending an account's first doctor row blocks that account at login |
| AdminController.SuspendedDoctorUnlisted | server/src/controllers/adminController.js:77-80 | a suspended doctor is not in the farmers' directory |
| AdminController.ApproveDoctor | server/src/controllers/adminController.js:57-71 | applies the approval and answers 200 "Doctor approved successfully" |
| AdminController.SuspendDoctor | server/src/controllers/adminController.js:73-87 | applies the suspension and answers 200 "Doctor suspended successfully" |
| AdminController.Users | server/src/controllers/adminController.js:89-103 | exactly the accounts with role user, suspended ones included, each once, newest first |
| AdminController.UserSuspended | server/src/controllers/adminController.js:109-112 | that account's status becomes suspended and the row stays; nothing else changes |
| AdminController.SuspendUserIdempotent | server/src/controllers/adminController.js:109-112 | suspending twice equals suspending once |
| AdminController.SuspendedUserStillLogsIn | server/src/controllers/adminController.js:109-112 | a suspended account gets the same login reply as before |
| AdminController.SuspendUser | server/src/controllers/adminController.js:105-119 | applies the suspension and answers 200 "User suspended successfully" |
| AdminController.Diseases | server/src/controllers/adminController.js:121-132 | every disease row, each once, by name ascending |
| AdminController.AddDisease | server/src/controllers/adminController.js:134-148 | a missing field is 500 "Failed to add disease" with no change; otherwise one diseases row is inserted and the reply is 201 |
| AdminController.AddedDiseaseListed | server/src/controllers/adminController.js:123-141 | an added disease is listed |
| AdminController.BroadcastNotification | server/src/controllers/adminController.js:150-164 | a missing field is 500 "Failed to send notification" with no change; otherwise one notifications row is inserted and the reply is 201 |
| AppointmentsScreen.Approved | client/src/components/Doctor/Appointments.jsx:43-49 | same length and order; entries with the id become completed; others are untouched |
| AppointmentsScreen.Cancelled | client/src/components/Doctor/Appointments.jsx:51-53 | exactly the entries with another id, each as often as in the list, in order |
| AppointmentsScreen.Upcoming | client/src/components/Doctor/Appointments.jsx:55 | exactly the scheduled entries, each as often as in the list, in order |
| AppointmentsScreen.CompletedOnes | client/src/components/Doctor/Appointments.jsx:56 | exactly the completed entries, each as often as in the list, in order |
| AppointmentsScreen.PartitionsDisjoint | client/src/components/Doctor/Appointments.jsx:55-56 | no entry is in both lists; together they are no longer than the list |
| AppointmentsScreen.UnknownIdUnchanged | client/src/components/Doctor/Appointments.jsx:43-53 | approving or cancelling an id that is not present changes nothing |
| AppointmentsScreen.ApproveIdempotent | client/src/components/Doctor/Appointments.jsx:43-49 | approving twice equals approving once |
| AppointmentsScreen.ApproveMovesToCompleted | client/src/components/Doctor/Appointments.jsx:43-56 | approving a scheduled entry removes its id from Upcoming and shows it completed |
| AppointmentsScreen.Screen.constructor | client/src/components/Doctor/Appointments.jsx:7-41 | the screen starts with the three seeded appointments |
| AppointmentsScreen.Screen.Approve | client/src/components/Doctor/Appointments.jsx:43-49 | the list becomes the approved list |
| AppointmentsScreen.Screen.Cancel | client/src/components/Doctor/Appointments.jsx:51-53 | the list becomes the cancelled list |
| NearbyDoctorsScreen.FilteredDoctors | client/src/components/User/NearbyDoctors.jsx:72-78 | a doctor is kept exactly when the lowercased search occurs in its lowercased name, specialty or location, and the choice is 'all' or its specialty; every copy of a kept doctor stays, and order is kept |
| NearbyDoctorsScreen.UnfilteredShowsAll | client/src/components/User/NearbyDoctors.jsx:67-78 | an empty search with 'all' shows every doctor |
| NearbyDoctorsScreen.SpecialtyIsExact | client/src/components/User/NearbyDoctors.jsx:76 | a choice other than 'all' keeps only that exact specialty |
| NearbyDoctorsScreen.LongerSearchNarrows | client/src/components/User/NearbyDoctors.jsx:73-77 | a longer term containing the old one yields a subsequence of the old result |
| NearbyDoctorsScreen.SearchIgnoresCase | client/src/components/User/NearbyDoctors.jsx:72-78 | any two search terms that lower-case alike give the same list in the same order, for every directory and specialty choice |
| NearbyDoctorsScreen.SearchAsLowered | client/src/components/User/NearbyDoctors.jsx:72-78 | a term gives the same list as its lower-cased form |
| NearbyDoctorsScreen.IndoreFindsAll | client/src/components/User/NearbyDoctors.jsx:73-75 | an example: "indore" finds every doctor located in "Indore, MP" |
| NearbyDoctorsScreen.IndoreFindsDirectory | client/src/components/User/NearbyDoctors.jsx:8-78 | so "indore" with "all" keeps the whole seeded directory |
| NearbyDoctorsScreen.DirectorySpecialtiesOffered | client/src/components/User/NearbyDoctors.jsx:8-70 | every listed doctor's specialty is a dropdown choice |
| DoctorCasesScreen.FilteredCases | client/src/components/Doctor/MyCases.jsx:77-81 | a case is kept exactly when the term occurs, ignoring case, in its patient or case id; every copy of a kept case stays, and order is kept |
| DoctorCasesScreen.EmptySearchKeepsAll | client/src/components/Doctor/MyCases.jsx:50 | an empty search keeps every case (see also lines 77-81) |
| DoctorCasesScreen.CaseCounters | client/src/components/Doctor/MyCases.jsx:197-227 | total, in-progress and resolved counts, with in-progress+resolved ≤ total |
| DoctorCasesScreen.StatusBadge | client/src/components/Doctor/MyCases.jsx:52-66 | a badge exactly for pending, in-progress and resolved; its caption is the status with the first '-' made a space |
| DoctorCasesScreen.BadgeLabels | client/src/components/Doctor/MyCases.jsx:63 | "in-progress" is shown as "in progress" |
| DoctorCasesScreen.PlainBadgeLabels | client/src/components/Doctor/MyCases.jsx:63 | "pending" and "resolved" are shown as they are |
| DoctorCasesScreen.BadgeIconsDistinct | client/src/components/Doctor/MyCases.jsx:52-66 | two different statuses that have badges get different icons |
| DoctorCasesScreen.SeverityColor | client/src/components/Doctor/MyCases.jsx:68-75 | low, medium and high map to green, yellow and red; anything else has no colour |
| DoctorCasesScreen.SeverityColorsDistinct | client/src/components/Doctor/MyCases.jsx:68-75 | two different severities that have colours get different colours |
| DoctorCasesScreen.SeededCasesRender | client/src/components/Doctor/MyCases.jsx:7-75 | every seeded case has a badge and a colour |
| SubmitCaseForm.ChangesCommute | client/src/components/User/SubmitCase.jsx:24-27 | changes to two different fields can be made in either order |
| SubmitCaseForm.WithField | client/src/components/User/SubmitCase.jsx:24-27 | only the named field takes the new value |
| SubmitCaseForm.Validate | client/src/components/User/SubmitCase.jsx:43-51 | refused for fields exactly when a required field is empty; refused for the image exactly when the fields are filled and no image is loaded; accepted otherwise |
| SubmitCaseForm.OptionalFieldsIrrelevant | client/src/components/User/SubmitCase.jsx:43 | breed, duration and notes never change the verdict |
| SubmitCaseForm.FieldsCheckedFirst | client/src/components/User/SubmitCase.jsx:43-51 | with a required field empty, the image makes no difference |
| SubmitCaseForm.ResetFormRefused | client/src/components/User/SubmitCase.jsx:63-71 | a reset form is refused for fields |
| SubmitCaseForm.Form.constructor | client/src/components/User/SubmitCase.jsx:8-20 | empty fields, no image, not submitted, not loading |
| SubmitCaseForm.Form.HandleChange | client/src/components/User/SubmitCase.jsx:24-27 | only the named form field changes |
| SubmitCaseForm.Form.HandleImageChange | client/src/components/User/SubmitCase.jsx:29-38 | a chosen file becomes the preview; no file changes nothing |
| SubmitCaseForm.Form.HandleSubmit | client/src/components/User/SubmitCase.jsx:40-53 | callable only when not loading, as the button is disabled then; the verdict of Validate; a refusal changes nothing; acceptance sets loading (see also line 264) |
| SubmitCaseForm.Form.SubmissionCompleted | client/src/components/User/SubmitCase.jsx:56-59 | submitted is set, loading cleared, form kept |
| SubmitCaseForm.Form.FormReset | client/src/components/User/SubmitCase.jsx:62-74 | all fields are emptied, the image dropped and submitted cleared |
| SubmitCaseForm.SubmitRound | client/src/components/User/SubmitCase.jsx:40-76 | an accepted submit, then completion, then reset leaves a fresh form that is not loading |
| FarmerProfileScreen.EditBackRestores | client/src/components/User/Profile.jsx:25-28 | editing a field back to its old value restores the record |
| FarmerProfileScreen.WithEdit | client/src/components/User/Profile.jsx:25-28 | only the named field changes; registration date and avatar never do |
| FarmerProfileScreen.Screen.constructor | client/src/components/User/Profile.jsx:8-23 | the seeded profile, and the buffer equal to it, outside edit mode |
| FarmerProfileScreen.Screen.StartEditing | client/src/components/User/Profile.jsx:120 | only the edit flag is set |
| FarmerProfileScreen.Screen.HandleEditChange | client/src/components/User/Profile.jsx:25-28 | one buffer field changes, never the profile |
| FarmerProfileScreen.Screen.HandleSave | client/src/components/User/Profile.jsx:30-34 | the buffer becomes the profile and edit mode ends; outside edit mode the buffer equals the profile |
| FarmerProfileScreen.Screen.HandleCancel | client/src/components/User/Profile.jsx:36-39 | the buffer is reset to the unchanged profile and edit mode ends |
| FarmerProfileScreen.EditThenCancel | client/src/components/User/Profile.jsx:25-39 | edit and cancel restore the screen exactly (see also line 120) |
| FarmerProfileScreen.EditThenSave | client/src/components/User/Profile.jsx:25-34 | edit and save change exactly that field of the profile (see also line 120) |
| DoctorProfileScreen.InitialProfile | client/src/components/Doctor/Profile.jsx:8-24 | the stored session name and email are used when present |
| DoctorProfileScreen.WithEdit | client/src/components/Doctor/Profile.jsx:102 | only that field changes; experience, rating, cases handled and success rate never do (see also lines 113, 187, 205, 223, 241, 260) |
| DoctorProfileScreen.Screen.constructor | client/src/components/Doctor/Profile.jsx:9-26 | the initial profile, and the buffer equal to it, outside edit mode |
| DoctorProfileScreen.Screen.ToggleEditing | client/src/components/Doctor/Profile.jsx:59 | only the edit flag flips; unsaved edits stay in the buffer |
| DoctorProfileScreen.Screen.EditField | client/src/components/Doctor/Profile.jsx:102 | one buffer field changes, never the profile |
| DoctorProfileScreen.Screen.HandleSave | client/src/components/Doctor/Profile.jsx:28-32 | the buffer becomes the profile and edit mode ends |
| DoctorProfileScreen.Screen.HandleCancel | client/src/components/Doctor/Profile.jsx:34-37 | the buffer is reset to the unchanged profile and edit mode ends |
| DoctorProfileScreen.HeaderCancelKeepsEdit | client/src/components/Doctor/Profile.jsx:59-76 | leaving edit mode by the header button and coming back finds the unsaved edit still in the buffer |
| DoctorProfileScreen.FooterCancelDiscardsEdit | client/src/components/Doctor/Profile.jsx:34-37 | the footer Cancel discards the same edit (see also lines 289-294) |
| Text.ReplaceFirst | client/src/components/Doctor/MyCases.jsx:63 | `replace` with a one-character pattern changes only the first occurrence |
| Text.LowerIdempotent | client/src/components/User/NearbyDoctors.jsx:73-75 | lower-casing an already lower-cased text changes nothing |
| Text.MatchesFoldedNarrows | client/src/components/User/NearbyDoctors.jsx:73-75 | a longer search term matches only where a shorter term it contains matches |
| Text.Split | server/src/middleware/auth.js:8 | `split(' ')`: at least one field, two or more exactly when the header has a space, and no field holds a space |
| Text.SplitJoin | server/src/middleware/auth.js:8 | joining the fields of `split(' ')` gives back the header |

## Left out

- Table contents, not the SQL engine, are modelled.
  - Text comparison is byte-wise, and `LIKE` is read as plain containment. MySQL's case-insensitive collations, and `%` or `_` in a search, are not modelled.
  - GROUP BY compares disease names exactly, not under a collation.
- Any database error (a broken connection, a constraint violation) becomes a 500 only where a missing body field causes one. Foreign keys on visit_requests and messages are not checked, and neither is a unique key on users.email. config/schema.sql is not part of this model.
- The status of a newly registered account is taken to be the column default, active. config/schema.sql is not part of this model.
- A JSON `null` body field and an absent one are the same `None`. The driver rejects only `undefined`, and it binds `null` as SQL NULL. So in the code, a `null` field sent to addDiagnosis, updateProfile, sendMessage, requestPhysicalVisit, addDisease or broadcastNotification writes NULL and answers 200 or 201, unless a NOT NULL column refuses it (config/schema.sql is not part of this model). The model answers 500 and changes nothing. A present field of the wrong type is not modelled.
- UserController.SubmitCase: receives age and weight as the natural numbers that `parseInt(age)` and `parseFloat(weight)` produce (userController.js:51). The parsing itself is not modelled, and neither are the values a natural number cannot hold: `NaN` from text that does not parse, a negative age and a fractional weight.
- DoctorController.CureRate: computed in exact rational arithmetic with round half up. The floating-point error of `resolved / assigned * 100` is not modelled.
- The DECIMAL rating column is an integer that keeps its order. Fractions are not modelled.
- `DATE_FORMAT(created_at, '%Y-%m')` is a `month` parameter mapping a time to a month number. Later months get larger numbers, which matches the order of the formatted text.
- UserController.DashboardDoctors: states the top-five property. It does not state that the dashboard list is a prefix of the directory, because the two queries order by different keys (`rating` and `ABS(rating)`).
- DoctorController.MonthlyPerformance: its query has no `ORDER BY`, so no order is claimed. Which twelve months come back when there are more is not claimed either.
- AdminController.DiseaseStats: its query has no `ORDER BY`, so which ten groups are returned is not claimed.
- Library calls are parameters of the handlers:
  - bcrypt's hash and compare;
  - jwt-simple's encode and decode, including the secret and the signature check;
  - `Date.now()` and `NOW()`;
  - `Math.random()` (the `pick` index).
- `users[0]` and `doctors[0]` are the row with the smallest id. An engine may return another order without `ORDER BY`.
- Role checks in the route files are not part of this model (server/src/routes/*.js references a role.js that is absent). Request concurrency is not part of this model either.
- A `search` query parameter sent as an array is not modelled.
- React rendering, animation, toasts and navigation are not modelled. The submission form's two timers are explicit steps run in order (SubmissionCompleted, then FormReset).
- The FileReader in the submission form is collapsed into one step that receives the data URL.
- SubmitCaseForm.Form.HandleSubmit: the browser's own checks of the inputs marked `required` (SubmitCase.jsx:154-230), which stop a submit before handleSubmit runs, are not modelled. Only handleSubmit's checks are. While loading the submit button is disabled (line 264), so the model calls HandleSubmit only when not loading.
- FarmerProfileScreen: animalCount is text throughout. The change from the initial number 45 to the text a number input yields is not modelled.
- Upper-lower case folding is ASCII only. `toLowerCase` on non-ASCII letters is not modelled.
- Dashboard StatCard animations, the charts and the fetch-only screens are not part of this model. The axios service wrappers are not part of it either.
