# Flexifun server core and sign-in screens, modelled in Dafny

Flexifun is a therapy-games web application for autistic children. An Express
server keeps four MongoDB collections (students, therapists, per-module game
progress, play sessions) and serves them through sixteen routes. Students sign
in with a four-digit PIN drawn as a dot pattern. Therapists sign in with email
and password. Both get a signed token whose `type` claim selects the role
gate they may pass.

This project models:

- the four schemas, with their defaults, bounds, required fields and indexes;
- the route table and its three authorization gates;
- the sign-up and login handlers;
- the student handlers: profile, progress upsert and statistics;
- the therapist handlers: dashboard, assignment, progress view and weekly report;
- the client's game catalogue;
- the therapist form validator;
- the child pattern-login state machine.

Layout, one module per file:

| file | module | models |
|---|---|---|
| common.dfy | Common | ids, `Option`, replies, JS truthiness (`x \|\| d`), lower-casing, `String.replace` of the first occurrence |
| module_enum.dfy | ModuleEnum | the four game-module identifiers |
| game_progress.dfy, session.dfy, student.dfy, therapist.dfy | GameProgressModel, SessionModel, StudentModel, TherapistModel | the schemas and the queries over them |
| crypto.dfy | Crypto | the token service and the password hasher, as function values |
| database.dfy | Database | the collections as a `Store` object and what every stored collection keeps |
| auth_middleware.dfy | AuthMiddleware | the three gates |
| route_table.dfy | RouteTable | the route registrations and the dispatch decision |
| auth_routes.dfy, student_routes.dfy, therapist_routes.dfy | AuthRoutes, StudentRoutes, TherapistRoutes | the handlers |
| game_service.dfy | GameService | the catalogue and its two lookups |
| therapist_login_page.dfy | TherapistLoginPage | the therapist form |
| child_login_page.dfy | ChildLoginPage | the child pattern screen |

The model follows the source's own form:

- Handlers that insert or update a record are methods on the `Store`. They
  state the whole new collection, and they keep the collection invariants
  (`Store.Valid`).
- Lookups, folds and the gates are functions.
- The two pages are classes whose fields are the React state cells.

Handlers that read `req.user` receive the id its gate attached. When that id
is absent, such a handler answers 401 before it reads any collection.

Mongoose behaviour the model commits to:

- `save()` runs the schema validators, and a refusal becomes the handler's 500
  reply.
- `findByIdAndUpdate` runs no validator. It drops fields that are `undefined`.
  So a profile update writes only the supplied fields, and it may store an
  empty name.
- The `lowercase` option on the therapist email also applies to query
  filters. So login and the sign-up check compare addresses in lower case.
- A filter whose value is `undefined` matches no stored document.
- `populate` drops references to students that no longer exist.

Behaviour of the code worth noting:

- The student PIN is stored and looked up in cleartext. The bcrypt digest kept
  in `password` is never consulted at login.
- `lastPlayedAt` is also set when a progress record is created, through the
  schema default.
- The therapist form validates only. It never calls the login endpoint.

## Model

| member | source | states |
|---|---|---|
| Common.NumberOr | server/routes/student.ts:83-90 | `x \|\| d` on a number: the supplied value when it is present and non-zero, otherwise the default |
| Common.TextOr | server/routes/auth.ts:52 | `x \|\| d` on a string: the supplied value when it is non-empty, otherwise the default |
| Common.Lower | server/models/Therapist.ts:23 | lower-casing keeps length, maps each character, and leaves no upper-case letter |
| Common.LowerIdempotent | server/models/Therapist.ts:23 | lower-casing twice is lower-casing once |
| Common.FirstOccurrence | server/middleware/auth.ts:13 | the first position at or after the start where the pattern occurs, none exactly when it occurs nowhere there |
| Common.RemoveFirst | server/middleware/auth.ts:13 | replacing the first occurrence: unchanged when the pattern does not occur; otherwise the text before the first occurrence followed by the text after it |
| Common.RemoveFirstOfPrefixed | server/middleware/auth.ts:13 | stripping a prefix the string starts with gives back the rest |
| ModuleEnum.Parse | server/models/GameProgress.ts:22-31 | a string is accepted exactly when it is one of the four module names, and it maps back to that name |
| ModuleEnum.EnumerationComplete | server/models/GameProgress.ts:25-30 | every module is listed and its name parses back to it |
| GameProgressModel.Create | server/models/GameProgress.ts:15-56 | the record is accepted iff studentId is present, moduleId is a listed module and accuracy lies in 0..100; absent fields take completed 0, total 5, accuracy 0, timeSpent 0, lastPlayedAt now |
| GameProgressModel.FindOne | server/routes/student.ts:77 | the first record of the (student, module) pair, or none exactly when no record matches |
| GameProgressModel.OfStudent | server/routes/student.ts:60 | exactly the student's records |
| GameProgressModel.FindModule | server/routes/therapist.ts:111 | the first record of a module, none exactly when there is none |
| GameProgressModel.SumAccuracyBounds | server/models/GameProgress.ts:40-45 | the accuracies of valid records sum to between 0 and 100 per record |
| GameProgressModel.OfStudentAppend | server/routes/student.ts:60 | the student filter distributes over concatenation |
| GameProgressModel.OfStudentValid | server/models/GameProgress.ts:40-45 | filtering keeps the accuracy bound |
| SessionModel.Create | server/models/Session.ts:15-57 | a session is accepted iff studentId, moduleId and duration are present, moduleId is listed and accuracy lies in 0..100; defaults accuracy 0, points 0, notes "" |
| SessionModel.OfStudent | server/routes/student.ts:111 | exactly the student's sessions |
| SessionModel.OfTherapist | server/routes/therapist.ts:53 | exactly the sessions attributed to the therapist, a sub-multiset of the log |
| SessionModel.OfStudentSince | server/routes/therapist.ts:152-157 | exactly the student's sessions created at or after the bound |
| SessionModel.OfStudentCount | server/routes/student.ts:121 | the filter's length equals the direct count of the student's sessions |
| SessionModel.SumsAppend | server/routes/student.ts:122-128 | the duration, points and accuracy folds are additive over concatenation |
| SessionModel.OfStudentAppend | server/routes/student.ts:111 | the student filter distributes over concatenation |
| SessionModel.OfStudentSinceAppend | server/routes/therapist.ts:152-157 | the windowed student filter distributes over concatenation |
| SessionModel.SumAccuracyBounds | server/models/Session.ts:41-46 | valid accuracies sum to between 0 and 100 per session |
| SessionModel.OfStudentSinceValid | server/models/Session.ts:41-46 | the windowed filter keeps validity |
| StudentModel.Create | server/models/Student.ts:17-59 | accepted iff name, password and pinCode are non-empty; avatar defaults to the lion, sound on, stars and counters 0 |
| StudentModel.ProjectionsOmitCredentials | server/routes/student.ts:15 | the reply projections do not depend on password or PIN |
| StudentModel.FindById | server/routes/student.ts:110 | a student with that id, none exactly when no student has it |
| StudentModel.FindByPin | server/routes/auth.ts:14 | the first student holding the PIN, none exactly when nobody holds it |
| StudentModel.IndexOf | server/routes/student.ts:36-40 | the position of the first student with that id, none exactly when absent |
| TherapistModel.Create | server/models/Therapist.ts:13-41 | accepted iff name, email and password are non-empty; the email is stored lower-cased, organization defaults to "Independent", no students |
| TherapistModel.FindByEmail | server/routes/auth.ts:86 | a therapist whose stored address equals the lower-cased query, none exactly when nobody has it |
| TherapistModel.IndexOf | server/routes/therapist.ts:16 | the position of a therapist with that id, with no earlier one holding it; none exactly when absent |
| TherapistModel.EmailKeyIgnoresCase | server/models/Therapist.ts:23 | addresses differing only in case find the same account |
| AuthMiddleware.ExtractToken | server/middleware/auth.ts:13 | a token is extracted exactly when the header is present, and it is never longer than the header |
| AuthMiddleware.Authenticate | server/middleware/auth.ts:12-27 | 401 "No token provided" without a token, 401 "Invalid token" when verification fails, otherwise proceed with the verified claims |
| AuthMiddleware.RequireKind | server/middleware/auth.ts:29-45 | an authentication refusal is passed on unchanged; a valid token of another type gets 403; proceed exactly when the type matches |
| AuthMiddleware.StudentGate | server/middleware/auth.ts:29-36 | proceeds only with student claims; refusals are 401 or 403 "Student access required" |
| AuthMiddleware.TherapistGate | server/middleware/auth.ts:38-45 | proceeds only with therapist claims; refusals are 401 or 403 "Therapist access required" |
| AuthMiddleware.BearerHeaderYieldsToken | server/middleware/auth.ts:13 | a "Bearer " + t header yields t |
| AuthMiddleware.BareHeaderIsToken | server/middleware/auth.ts:13 | a header without "Bearer " is taken whole as the token |
| AuthMiddleware.EmptyBearerHasNoToken | server/middleware/auth.ts:15-17 | the header "Bearer " alone gets 401 "No token provided" |
| AuthMiddleware.IssuedTokenPasses | server/middleware/auth.ts:19-26 | a token the server issued passes the gate of its own type with the issued claims |
| AuthMiddleware.RoleIsolation | server/middleware/auth.ts:29-45 | a valid student token gets 403 at the therapist gate, and the reverse |
| RouteTable.Lookup | server/index.ts:30-93 | the first registration whose verb matches and whose path matches segment by segment, `:param` taking any non-empty segment; none exactly when nothing matches |
| RouteTable.Gate | server/index.ts:48-93 | only unguarded routes skip the gate |
| RouteTable.PathMatchesEverywhere | server/index.ts:85-93 | a request path matches a registered path exactly when they have the same number of segments and each `:param` segment meets a non-empty segment while every other segment is equal |
| RouteTable.Dispatch | server/index.ts:30-93 | an unregistered request is not routed; a handler runs with the gate's claims, or without a user only on an unguarded route, and receives the segments at the route's `:param` positions; a refusal is the gate's own |
| RouteTable.RoutesUnique | server/index.ts:30-93 | no verb and path pair is registered twice |
| RouteTable.EveryRouteFitsArea | server/index.ts:30-93 | every registration carries its area's role gate, none under /api/auth/, and never the bare gate |
| RouteTable.StudentRoutesGuarded | server/index.ts:48-72 | exactly the /api/student/ routes carry the student gate |
| RouteTable.TherapistRoutesGuarded | server/index.ts:75-93 | exactly the /api/therapist/ routes carry the therapist gate |
| RouteTable.AuthRoutesOpen | server/index.ts:42-45 | the sign-up and login routes are unguarded, and the bare authentication gate guards no route |
| RouteTable.HealthUnguarded | server/index.ts:30-32 | the health route is handled whatever the header |
| RouteTable.PerStudentRoutesMatch | server/index.ts:85-93 | GET /api/therapist/student/<id>/progress and .../report reach their registrations for every non-empty id |
| RouteTable.TherapistReachesStudentRoutes | server/index.ts:85-93 | with a token the server issued to a therapist, both per-student routes run their handler with the therapist's claims and the id from the path as `studentId` |
| RouteTable.HandlersSeeTheirRole | server/index.ts:48-93 | a handler of the /api/student/ area runs only with student claims, one of the /api/therapist/ area only with therapist claims, whatever the path |
| RouteTable.RoleIsolationOnRoutes | server/index.ts:48-93 | on every request path that reaches a guarded registration, parameterised ones included, a valid token of the other role is refused with 403 |
| RouteTable.BadTokenRefused | server/middleware/auth.ts:15-23 | on every request path that reaches a guarded registration, parameterised ones included, a missing or unverifiable token gets 401 |
| AuthRoutes.StudentLogin | server/routes/auth.ts:10-31 | 400 "PIN code required" without a PIN; 200 exactly when some student holds the PIN, with that student's token and view; otherwise 401 "Invalid PIN code" |
| AuthRoutes.StudentLoginFindsOwner | server/routes/auth.ts:14 | with PINs unique, logging in with a stored PIN answers for that student |
| AuthRoutes.StudentAppended | server/routes/auth.ts:50-57 | saving a stored student with a fresh id and an unused PIN keeps ids and PINs unique and every record stored |
| AuthRoutes.StudentSignup | server/routes/auth.ts:37-74 | 400 for a missing name or PIN or a PIN in use; otherwise one record is appended with the defaults and the hashed PIN, 201; a login with the same PIN then finds that record |
| AuthRoutes.TherapistLogin | server/routes/auth.ts:76-104 | 400 for a missing field; 200 with the account's token and view exactly when an account has the lower-cased address and its digest matches the password; an unknown address and a wrong password both give 401 "Invalid credentials" |
| AuthRoutes.FindByEmailUnique | server/routes/auth.ts:86 | with addresses unique, the lookup returns the account that holds the address |
| AuthRoutes.TherapistAppended | server/routes/auth.ts:125-132 | saving a valid therapist with a fresh id and an unused address keeps ids and addresses unique, and the address then finds that record |
| AuthRoutes.TherapistSignup | server/routes/auth.ts:110-146 | 400 for a missing field or an address in use; otherwise one lower-cased record is appended, 201; with a sound hasher, a login with the same credentials succeeds |
| StudentRoutes.GetStudentProfile | server/routes/student.ts:6-21 | 401 without a user; 404 exactly when no student has the id; otherwise the record without credentials |
| StudentRoutes.Patch | server/routes/student.ts:36-39 | only name, avatar and soundEnabled can change, each only when supplied; an empty patch changes nothing |
| StudentRoutes.UpdateStudentProfile | server/routes/student.ts:27-46 | 401 or 404 leave the store unchanged; otherwise only that student's record is patched, and the reply is its new profile |
| StudentRoutes.GetStudentProgress | server/routes/student.ts:52-62 | 401 without a user; otherwise exactly the caller's records |
| StudentRoutes.Upsert | server/routes/student.ts:77-94 | an accepted update saves a valid record of the named pair, stamped now; an absent or unlisted moduleId is refused |
| StudentRoutes.UpsertKeepsIndex | server/models/GameProgress.ts:58 | an update keeps the accuracy bound and one record per (student, module) pair |
| StudentRoutes.UpsertTouchesOnlyPair | server/routes/student.ts:77-94 | records of other pairs are kept, no other record appears, and the collection grows by at most one |
| StudentRoutes.CreatedRecordReadsBack | server/routes/student.ts:79-86 | a first update creates a record with the supplied values, total 5, and it is among the student's records |
| StudentRoutes.FalsyValuesKeepOld | server/routes/student.ts:88-89 | on an existing record, completed and accuracy change only to truthy supplied values; 0 or absent keeps the old value |
| StudentRoutes.SavedIsFoundNext | server/routes/student.ts:77 | the record an update saved is the one the next update of the pair finds |
| StudentRoutes.TimeSpentAccumulates | server/routes/student.ts:90 | two updates of a pair supplying a then b add a + b to the time already recorded |
| StudentRoutes.UpdateGameProgress | server/routes/student.ts:68-99 | 401 without a user; otherwise the store becomes the upsert's collection with 200 and the saved record, or stays unchanged with 500 when validation refuses |
| StudentRoutes.GetStudentStats | server/routes/student.ts:102-130 | 401 without a user; totalSessions counts the student's sessions, totalMinutes and totalPoints sum their durations and points; the streak is the stored one, 0 for a missing student |
| StudentRoutes.StreakIgnoresSessions | server/routes/student.ts:124 | the streak is read from the student record, never from the sessions |
| StudentRoutes.StatsAdditive | server/routes/student.ts:121-128 | count, minutes and points of a longer log are the sums over its parts |
| StudentRoutes.StatsOfOneSession | server/routes/student.ts:111-128 | an empty log gives zero totals; one session adds 1, its minutes and its points exactly when it is the caller's |
| StudentRoutes.ThreeSessionsMakeAnHour | server/routes/student.ts:122-123 | sessions of 10, 20 and 30 minutes total 60 minutes |
| TherapistRoutes.ProgressAverage | server/routes/therapist.ts:39-45 | no data exactly for no records; otherwise the sum of accuracies over the record count, a value in 0..100 over valid records |
| TherapistRoutes.SessionAverage | server/routes/therapist.ts:166-169 | no data exactly for no sessions; otherwise the sum of accuracies over the session count, a value in 0..100 over valid sessions |
| TherapistRoutes.ProgressPercentage | server/routes/therapist.ts:46-48 | the percentage is stars × 20, so stars in 0..5 give 0..100 and five stars give 100 |
| TherapistRoutes.EntryAsWritten | server/routes/therapist.ts:24-37 | as written, the line's `id` is the whole populated student record |
| TherapistRoutes.EntryAsWrittenRevealsPin | server/routes/therapist.ts:29-35 | as written, the line carries the student's PIN: two students differing only in PIN get different lines |
| TherapistRoutes.EntryOmitsCredentials | server/routes/therapist.ts:34-48 | the id-keyed line is independent of password and PIN, and carries the student's id |
| TherapistRoutes.Existing | server/routes/therapist.ts:16-29 | the assigned ids whose student exists, and only those, never more than were assigned |
| TherapistRoutes.Entries | server/routes/therapist.ts:16-51 | one line per existing assigned student, in assignment order, each computed from that student and carrying its id; none for a dangling id |
| TherapistRoutes.OneLinePerStudent | server/routes/therapist.ts:16-51 | with no id assigned twice, the lines carry distinct ids, and an id has a line exactly when it is assigned and its student exists |
| TherapistRoutes.InsertByAge | server/routes/therapist.ts:55 | inserting into a newest-first list keeps it newest first and adds exactly that session |
| TherapistRoutes.SortByAge | server/routes/therapist.ts:55 | the result is newest first and a permutation of the input |
| TherapistRoutes.HeadIsNewest | server/routes/therapist.ts:55-56 | cutting a newest-first list leaves nothing in the tail newer than the head |
| TherapistRoutes.Newest | server/routes/therapist.ts:53-56 | min(n, size) sessions, newest first, drawn from the input, none left out newer than one kept |
| TherapistRoutes.RecentAll | server/routes/therapist.ts:65-73 | one recent line per session, in order |
| TherapistRoutes.GetTherapistDashboard | server/routes/therapist.ts:8-74 | 401 without a user; 404 exactly when the therapist is missing; otherwise the therapist's summary, the lines of its assigned students, and the recent lines of its 10 newest sessions |
| TherapistRoutes.RecentAreNewest | server/routes/therapist.ts:53-56 | recent sessions belong to the therapist, and none of theirs left out is newer than one shown |
| TherapistRoutes.EntriesInRange | server/routes/therapist.ts:38-48 | over valid collections, percentages lie in 0..100 and accuracy means in 0..100 |
| TherapistRoutes.AddToSet | server/routes/therapist.ts:91 | adds exactly the value, keeps the old list as a prefix, and keeps the list duplicate-free |
| TherapistRoutes.AddToSetIdempotent | server/routes/therapist.ts:91 | assigning the same student twice is assigning once |
| TherapistRoutes.AssignStudent | server/routes/therapist.ts:80-95 | 401 without a user; 200 with null and no change for a missing therapist; otherwise only that therapist's list changes, and the updated record is returned |
| TherapistRoutes.SkillScore | server/routes/therapist.ts:108-135 | the accuracy of the first record of the module, 0 when there is none, within 0..100 for valid records |
| TherapistRoutes.Skills | server/routes/therapist.ts:108-135 | four lines, each label with its module's score |
| TherapistRoutes.SkillModules | server/routes/therapist.ts:108-135 | the module each skill line reads, in order |
| TherapistRoutes.SkillAreasCoverModules | server/routes/therapist.ts:108-135 | the four skill lines read each module exactly once |
| TherapistRoutes.LastOf | server/routes/therapist.ts:139 | the last min(n, size) sessions, as a suffix of the list |
| TherapistRoutes.GetAssignedStudentProgress | server/routes/therapist.ts:101-141 | always 200; exactly the student's records, its last 20 sessions, and the four skill lines computed from the student's records, each in 0..100 over valid records |
| TherapistRoutes.ViewKeepsLatest | server/routes/therapist.ts:139 | the view shows the latest 20 sessions of the student, in order |
| TherapistRoutes.Breakdown | server/routes/therapist.ts:170-174 | one line per record with its module, completed and accuracy |
| TherapistRoutes.GenerateWeeklyReport | server/routes/therapist.ts:147-178 | always 200; the week is the student's sessions of the last 7 days, bound included; it gives the count, the summed minutes, no average exactly when empty and otherwise the mean accuracy, a percentage over a valid log; the breakdown of all the student's records; the clock reading |
| TherapistRoutes.WeekTotalsAdd | server/routes/therapist.ts:152-169 | count, minutes and accuracy sum of a log split in two are the sums over the parts |
| TherapistRoutes.OtherSessionsIgnored | server/routes/therapist.ts:152-157 | a session of another student, or one older than a week, leaves the report unchanged |
| TherapistRoutes.NewSessionCounted | server/routes/therapist.ts:152-169 | a session of the student within the week adds 1 to the count, its minutes to the total and its accuracy to the mean |
| TherapistRoutes.WeekBoundary | server/routes/therapist.ts:154-156 | a session exactly 604800000 ms old is counted; one a millisecond older is not |
| TherapistRoutes.EightDaysOutSixDaysIn | server/routes/therapist.ts:152-165 | a session eight days old is left out and one six days old is counted with its minutes |
| TherapistRoutes.BreakdownIgnoresWindow | server/routes/therapist.ts:159-174 | the module breakdown does not depend on the clock |
| GameService.FindById | client/services/gameService.ts:69 | an entry with that id, none exactly when no entry has it |
| GameService.FilterByCategory | client/services/gameService.ts:75 | exactly the entries of that category |
| GameService.GetGameModuleById | client/services/gameService.ts:68-70 | a catalogue entry with that id, undefined exactly when no entry has it |
| GameService.GetGamesByCategory | client/services/gameService.ts:72-76 | exactly the catalogue entries of that category |
| GameService.CatalogueMatchesEnum | client/services/gameService.ts:29-66 | four entries whose ids are the server's module names, in order |
| GameService.EveryModuleHasGame | client/services/gameService.ts:29-66 | every server module has a catalogue entry |
| GameService.CatalogueDistinct | client/services/gameService.ts:29-66 | ids are pairwise distinct, and so are categories |
| GameService.LookupFindsEntry | client/services/gameService.ts:68-70 | looking up an entry's id gives that entry |
| GameService.EachCategoryHasOneGame | client/services/gameService.ts:72-76 | each category yields exactly one module, of that category |
| TherapistLoginPage.EmailError | client/pages/TherapistLogin.tsx:15-19 | no error exactly for a non-empty address containing '@'; "Email is required" when empty; "Please enter a valid email" otherwise |
| TherapistLoginPage.Utf16Length | client/pages/TherapistLogin.tsx:21-25 | `length` counts UTF-16 code units: between one and two per character, 0 exactly for the empty string |
| TherapistLoginPage.BmpLengthIsCount | client/pages/TherapistLogin.tsx:21-25 | below U+10000 the length is the number of characters |
| TherapistLoginPage.TwoEmojiPass | client/pages/TherapistLogin.tsx:21-25 | two emoji have length 4 and pass the password rule |
| TherapistLoginPage.PasswordError | client/pages/TherapistLogin.tsx:21-25 | no error exactly for a `length` of four or more UTF-16 units; "Password is required" when empty; the length message for a non-empty password shorter than that |
| TherapistLoginPage.Validate | client/pages/TherapistLogin.tsx:13-25 | no errors exactly when the address has '@' and the password's `length` is at least 4 |
| TherapistLoginPage.ErrorsIndependent | client/pages/TherapistLogin.tsx:13-25 | each field's message depends on that field alone |
| TherapistLoginPage.Form.constructor | client/pages/TherapistLogin.tsx:7-9 | empty fields, no errors |
| TherapistLoginPage.Form.SetEmail | client/pages/TherapistLogin.tsx:66 | only the email cell changes |
| TherapistLoginPage.Form.SetPassword | client/pages/TherapistLogin.tsx:83 | only the password cell changes |
| TherapistLoginPage.Form.HandleSubmit | client/pages/TherapistLogin.tsx:11-31 | navigates to /therapist-dashboard exactly when both fields pass, keeping the old errors; otherwise shows the computed errors and stays |
| ChildLoginPage.DotsAreOneToNine | client/pages/ChildLogin.tsx:19 | the grid's dots are exactly 1..9 |
| ChildLoginPage.DotChar | client/pages/ChildLogin.tsx:32 | a dot contributes one digit between '1' and '9' |
| ChildLoginPage.DotsToPin | client/pages/ChildLogin.tsx:32 | the PIN has one digit per dot, each the dot's digit |
| ChildLoginPage.PinToDots | client/pages/ChildLogin.tsx:32 | reads a PIN back as dot numbers |
| ChildLoginPage.PinRoundTrip | client/pages/ChildLogin.tsx:32 | the PIN determines the pattern |
| ChildLoginPage.RepeatsAllowed | client/pages/ChildLogin.tsx:22-32 | four taps on the same dot send "1111" |
| ChildLoginPage.Screen.constructor | client/pages/ChildLogin.tsx:12-17 | avatar step, empty pattern, nothing pending, no error |
| ChildLoginPage.Screen.Remaining | client/pages/ChildLogin.tsx:134 | between 0 and 4 dots remain, and 0 exactly when the pattern is complete |
| ChildLoginPage.Screen.Continue | client/pages/ChildLogin.tsx:116 | moves to the pattern step, nothing else changes |
| ChildLoginPage.Screen.ClickDot | client/pages/ChildLogin.tsx:21-34 | ignored when completed, loading or full; otherwise the dot is appended, and the fourth dot marks completed and loading, clears the error and sends the pattern's PIN |
| ChildLoginPage.Screen.LoginSucceeded | client/pages/ChildLogin.tsx:36-43 | navigates to /home |
| ChildLoginPage.Screen.LoginFailed | client/pages/ChildLogin.tsx:44-49 | the failure message is shown, the pattern is emptied, completed and loading are cleared |
| ChildLoginPage.Screen.HandleReset | client/pages/ChildLogin.tsx:53-57 | empties the pattern and clears completed and the error |
| ChildLoginPage.Screen.HandleBack | client/pages/ChildLogin.tsx:59-68 | from the pattern step, back to the avatars with the pattern cleared; from the avatar step, navigates to "/" |
| ChildLoginPage.FourTaps | client/pages/ChildLogin.tsx:21-34 | four accepted taps from an empty pattern send the four-digit PIN they spell |

## Findings

| source | as written | input that shows it | evidently intended | confidence | as-written member | corrected member |
|---|---|---|---|---|---|---|
| server/routes/therapist.ts:29-35 | after `populate("assignedStudents")` the mapped value is the student document, and it is returned as the line's `id` | any therapist with one assigned student: the dashboard line's `id` holds that student's password digest and cleartext PIN | the line carries the student's id only | medium, not executed | TherapistRoutes.EntryAsWrittenRevealsPin | TherapistRoutes.EntryOmitsCredentials |

`GetTherapistDashboard` builds its lines with the corrected, id-keyed `Entry`.
`EntryAsWritten` keeps the handler's own shape.

## Left out

- Floating point and formatting are not modelled. `totalHours` is reported as the integer `totalMinutes`, without the division by 60. `toFixed(2)` is not applied, so means are `Mean(sum, count)`. `(stars / 5) * 100` is integer arithmetic, which is exact for stars 0..5.
- The weekly report's `week` label (`toISOString`) is not modelled.
- Wall-clock time is a parameter `now`, in milliseconds. The `setTimeout` delay before `/home` is not modelled.
- Signing, verifying, hashing and comparing are function values. A token's expiry is part of what `verify` returns. bcrypt salting is not modelled. The soundness of sign/verify and hash/compare is an explicit hypothesis (`TokensSound`, `HasherSound`) wherever a result depends on it.
- ObjectId generation is `NextId`. Casting a malformed id to ObjectId, which raises an error and a 500, is not modelled, because ids are naturals.
- The database connection is not modelled. 500 replies from exceptions are modelled only where schema validation refuses a record.
- `Promise.all` in the dashboard is an order-preserving sequential map.
- Concurrent requests are not modelled. Each handler runs alone on the store, so the check-then-insert of the sign-ups cannot race.
- `createdAt`/`updatedAt` timestamps on students, therapists and progress records are not modelled. Session `createdAt` is kept, because the report and the dashboard read it.
- The emoji of the skill lines is not modelled.
- The `studentId` of a recent-session line is populated with name and avatar. It is modelled as two optional fields.
- Lower-casing covers ASCII letters only.
- RouteTable.Lookup: Express's default case-insensitive matching and its tolerance of a trailing slash are not modelled; paths match segment by segment as written.
- RouteTable.Dispatch: the `:studentId` parameter reaches the handler as a string in `params`; its cast to an ObjectId is not modelled, and the handlers take the id as an `Id`.
- The demo and ping handlers appear in the route table only. Their bodies are outside the core.
- No operation writes sessions. The session log is the store's constant `sessions`, fixed when the store is built.
- `server/utils/auth.ts` is not part of this model beyond the `Crypto` function values.
- `client/services/api.ts`, `client/contexts/AuthContext.tsx` and `client/contexts/StudentContext.tsx` are not part of this model: they are fetch, localStorage and React state plumbing.
- The UI-only pages are not part of this model: TherapistDashboard, ChildHome, Game, LoginSelection and Profile.
- Avatar selection on the child screen is not modelled.
- The "Back to avatars" button of the pattern step is not modelled. It only sets the step.
- The child screen's disabled attributes on the Back and Reset buttons are not modelled. `HandleBack` and `HandleReset` are the handlers as written, callable in any state.
- ChildLoginPage.Screen.LoginSucceeded: the token storage and the `login` context call it makes are not modelled.
- TherapistRoutes.AssignStudent: the reply is the whole therapist record, password digest included, as the handler sends it.
- TherapistRoutes.GetTherapistDashboard: the lines are keyed by student id, not by the populated document (see Findings).
