# Medical information system backend — a Dafny model

This project models the core of a medical information system's backend, a
web API that doctors use. Doctors register with a speciality, log in and
receive a token. They edit their profile and register patients. They file
inspections (visits), each with diagnoses coded by the ICD-10 classification
and with consultations, which are comment threads opened with another
speciality. Other parts of the core are:

- the paged dictionaries of specialities and ICD-10 records;
- the visit reminders, logged when an attempt succeeds or ends in an SMTP
  command error;
- the report that counts visits per ICD-10 root class over a period.

Each module follows one class of the source:

| module | file | flavour |
|---|---|---|
| `Common`, `Entities`, `Store` | common.dfy, entities.dfy | identifiers, nullable values, faults, the entities; `Store.Db` is the database context, one `seq` field per table |
| `Paging`, `Ordering` | paging.dfy, ordering.dfy | the `Skip/Take` page arithmetic and the `OrderBy` orderings the queries use |
| `RegexPatterns` | regex_patterns.dfy | the phone, email and password patterns as predicates, with .NET's `$` |
| `TokenService` | token_service.dfy | a class over the token map that its methods update |
| `DoctorRepository`, `DoctorService` | doctor.dfy | registration, credentials, uniqueness, profile |
| `DoctorController` | controller.dfy | the Register, Login and ChangeProfile endpoints, with their validation sequences |
| `DictionaryRepository` | dictionary_repository.dfy | specialities, ICD-10 roots and search |
| `PatientRepository` | patient_repository.dfy | patient creation, inspection creation with base-inspection resolution, the patient list |
| `InspectionRepository` | inspection_repository.dfy | the full view of one inspection |
| `EmailService`, `EmailRepository` | email.dfy | the reminder queries and logs |
| `ReportService` | report_service.dfy | the ICD-10 roots report |

Conventions:

- A `Guid` is a `nat` and `Guid.Empty` is 0. A `DateTime` is an `int` count
  of ticks. A nullable `T?` is `Option<T>`.
- An exception the source throws or meets becomes a `Failure` of `Result`:
  - `KeyNotFoundException` is `KeyNotFound`;
  - the dereference of a null, or `.Value` of a null, is `NullReference`;
  - recursion that never returns is `Diverges`.
- `Guid.NewGuid()`, `DateTime.UtcNow`, generated database keys and signed
  JWTs are parameters.
- Queries with a `ToList` and a copy loop are methods. Each is proved equal
  to a specification function, and the properties are lemmas about that
  function.
- Operations that save changes are methods on `Store.Db` with `modifies`.
  They state the whole new content of every table.

Where the documented behaviour and the code differ, the model follows the code:

- The report's records are not sorted by patient name. They come out in the
  order their patients were first met in the visit list, which is the order
  of `Dictionary.Values`.
- Root ids given explicitly to the report are not checked to be parentless.
  Any ICD-10 record's code is accepted.
- The entity's conclusion is nullable, but the inspection DTO's `Conclusion`
  is not. The view keeps it as `Option<Conclusion>`.
- `DoctorService.Register` and `DoctorService.Login` are declared in the
  service class with signatures older than the ones the controller calls
  through `IDoctorService`. The model follows the controller's calls, which
  receive a token and the doctor's id.

## Model

| member | source | states |
|---|---|---|
| Paging.PageCount | DataAccess/Repositories/PatientRepository.cs:215 | the page count is the least number of pages of `size` that cover the total (`ceil(total / size)`) |
| Paging.Pagination | DataAccess/Repositories/PatientRepository.cs:211-216 | the page info repeats size and current page and carries the least covering page count |
| Paging.Page | DataAccess/Repositories/PatientRepository.cs:218-221 | `Skip((page-1)*size).Take(size)`: empty past the end, otherwise `min(size, rest)` items taken in order from the offset |
| Paging.PageEmptyIffPastCount | DataAccess/Repositories/PatientRepository.cs:211-221 | a page is empty exactly when its number exceeds the reported page count |
| Paging.ItemOnItsPage | DataAccess/Repositories/PatientRepository.cs:211-221 | every item of a listing appears on a page within the reported count, at the expected position |
| Paging.PageImage | DataAccess/Repositories/PatientRepository.cs:227-244 | every model on a page is the model of some item of the listing |
| Paging.ModelsOf | DataAccess/Repositories/DictionaryRepository.cs:38-48 | the copy loop makes one model per entity of the page, in order, each the model of that entity |
| Paging.PagesDisjoint | DataAccess/Repositories/PatientRepository.cs:218-221 | two different pages never hold the same item position |
| Ordering.LeTotal | DataAccess/Repositories/PatientRepository.cs:186-209 | both directions of the key order compare every two keys |
| Ordering.LeTransitive | DataAccess/Repositories/PatientRepository.cs:186-209 | both directions of the key order are transitive |
| Ordering.SortBy | DataAccess/Repositories/PatientRepository.cs:186-209 | an `OrderBy`/`OrderByDescending` result is a permutation of its input |
| Ordering.SortBySorted | DataAccess/Repositories/PatientRepository.cs:186-209 | an `OrderBy`/`OrderByDescending` result is in order by its key |
| Common.Lower | DataAccess/Repositories/DoctorRepository.cs:28 | `ToLower` keeps the length, lower-cases Latin letters and the Russian capitals А–Я and Ё, and leaves every other character unchanged |
| RegexPatterns.PhoneShape | Common/RegexPatterns.cs:5 | an accepted phone is `+7` and ten digits, possibly followed by one line feed; on a line-feed-free string the pattern is exactly its body |
| RegexPatterns.EmailShape | Common/RegexPatterns.cs:6 | an accepted email has exactly one `@` with a non-empty local part before it, and a dot in the domain after which come two to four word characters |
| RegexPatterns.PasswordNeedsDigit | Common/RegexPatterns.cs:7 | on one line, a password is accepted exactly when it is non-empty and holds a digit |
| TokenService.TokenService.AddToken | BusinessLogic/Services/TokenService.cs:10-15 | the user now holds exactly the new token; every other user's tokens are unchanged |
| TokenService.TokenService.RemoveToken | BusinessLogic/Services/TokenService.cs:17-27 | an unknown token changes nothing; otherwise one holder's entry is deleted, unless that holder is the empty Guid |
| TokenService.TokenService.GetUserIdByToken | BusinessLogic/Services/TokenService.cs:29-35 | returns a holder of the token when there is one, and the empty Guid otherwise |
| TokenService.TokenService.ClearTokens | BusinessLogic/Services/TokenService.cs:37-41 | afterwards no user holds any token |
| TokenService.Session | BusinessLogic/Services/TokenService.cs:10-41 | re-login with a fresh token invalidates the old token; revoking the old token keeps the new one; clearing invalidates all |
| DoctorRepository.Register | DataAccess/Repositories/DoctorRepository.cs:18-22 | the doctor table gains exactly the given row; other tables are unchanged |
| DoctorRepository.GetByCredentials | DataAccess/Repositories/DoctorRepository.cs:24-30 | finds a doctor whose stored email equals the lower-cased input and whose password matches, or none exactly when no such doctor exists |
| DoctorRepository.IsEmailUnique | DataAccess/Repositories/DoctorRepository.cs:32-38 | true exactly when no stored email equals the input, compared exactly (the service check at BusinessLogic/Services/DoctorService.cs:67-73 is the same query) |
| DoctorRepository.UniquenessIsCaseSensitive | DataAccess/Repositories/DoctorRepository.cs:32-38 | for every table holding only the lower-cased form of an email with a capital letter, that email counts as unique and its lower-cased form does not |
| DoctorService.Register | BusinessLogic/Services/DoctorService.cs:20-47 | stores one doctor with the model's fields, the generated id and the creation time, and returns the token with that id |
| DoctorService.Login | BusinessLogic/Services/DoctorService.cs:49-65 | a matching doctor (email ignoring case, exact password) gets the token and their id; otherwise the empty token and the empty Guid |
| DoctorService.IsSpecialityExisting | BusinessLogic/Services/DoctorService.cs:75-81 | true exactly when a speciality has the requested id |
| DoctorService.GetDoctorById | BusinessLogic/Services/DoctorService.cs:83-86 | returns a doctor with that id, or none exactly when there is none |
| DoctorService.GetProfile | BusinessLogic/Services/DoctorService.cs:88-106 | fails with a null dereference exactly when the doctor is missing; otherwise the profile of a doctor with that id |
| DoctorService.EditedDoctors | BusinessLogic/Services/DoctorService.cs:108-119 | the bulk update sets email, name, birthday, gender and phone of the rows with that id and leaves every other row and field unchanged |
| DoctorService.EditProfile | BusinessLogic/Services/DoctorService.cs:108-119 | the doctor table becomes the edited table; other tables are unchanged |
| DoctorService.EditedProfile | BusinessLogic/Services/DoctorService.cs:88-119 | after an edit the profile shows the new values and keeps speciality and creation time |
| DoctorController.Check | WebApi/Controllers/DoctorController.cs:31-88 | a failed check appends its error key and clears validity; a passed check changes nothing |
| DoctorController.RegisterErrorsExact | WebApi/Controllers/DoctorController.cs:29-88 | each error key is recorded exactly when its check failed, and none are recorded exactly when all checks pass |
| DoctorController.RegisterOutcome | WebApi/Controllers/DoctorController.cs:26-93 | answers 500 (SpecialityMissing) when the speciality is unknown; invalid answers carry the request's errors; success carries the token |
| DoctorController.RegisterAccepts | WebApi/Controllers/DoctorController.cs:26-93 | registration succeeds exactly when the speciality exists, the model state is valid, and phone, email, uniqueness, password, gender and birthday checks all pass |
| DoctorController.ValidateRegistration | WebApi/Controllers/DoctorController.cs:29-88 | the checks in sequence produce exactly the request's errors, and validity means a valid model state and no errors |
| DoctorController.Register | WebApi/Controllers/DoctorController.cs:26-93 | answers the outcome above; on success one doctor is stored and their token registered; otherwise nothing changes |
| DoctorController.Login | WebApi/Controllers/DoctorController.cs:95-110 | an empty token answers 400 and registers nothing; otherwise the token is registered for the matching doctor |
| DoctorController.ProfileErrorsExact | WebApi/Controllers/DoctorController.cs:150-197 | each error key is recorded exactly when its check failed; the password key never is |
| DoctorController.TakenByOther | WebApi/Controllers/DoctorController.cs:169-178 | the email check crashes exactly when the email is taken and the caller's row is missing; it fails only when another doctor holds the email |
| DoctorController.ProfileOutcome | WebApi/Controllers/DoctorController.cs:150-201 | the answer crashes exactly when the email check dereferences null; success carries no token |
| DoctorController.OwnEmailIsNotTaken | WebApi/Controllers/DoctorController.cs:169-178 | a caller may keep their own email; otherwise the email passes exactly when no doctor holds it |
| DoctorController.ValidateProfile | WebApi/Controllers/DoctorController.cs:150-197 | the checks in sequence give exactly the profile outcome |
| DoctorController.ChangeProfile | WebApi/Controllers/DoctorController.cs:139-201 | without a token holder other than the empty Guid the answer is 401 and nothing changes; otherwise the answer is the holder's outcome and the profile is edited only on success |
| DictionaryRepository.MatchingSpecialities | DataAccess/Repositories/DictionaryRepository.cs:24 | a speciality is listed exactly when its name contains the request, ignoring case |
| DictionaryRepository.GetSpecialities | DataAccess/Repositories/DictionaryRepository.cs:20-57 | the page of matching specialities, with page info over all matches; at most `size` items, each a match |
| DictionaryRepository.Roots | DataAccess/Repositories/DictionaryRepository.cs:61-64 | the parentless records, as a permutation, ordered by code |
| DictionaryRepository.RootsMembers | DataAccess/Repositories/DictionaryRepository.cs:61-64 | ordering keeps every parentless record as often as it occurs, and no other |
| DictionaryRepository.GetRoots | DataAccess/Repositories/DictionaryRepository.cs:59-79 | the copied parentless records, in ascending order of code |
| DictionaryRepository.GetRootsListsExactlyRoots | DataAccess/Repositories/DictionaryRepository.cs:59-79 | each returned record copies a parentless one, every parentless one is copied, and the counts agree |
| DictionaryRepository.SearchHits | DataAccess/Repositories/DictionaryRepository.cs:85-92 | a record is a hit exactly when its code (code-shaped request) or name (otherwise) contains the request |
| DictionaryRepository.SearchForDiagnoses | DataAccess/Repositories/DictionaryRepository.cs:81-126 | the page of hits, with page info over all hits; at most `size` items, each a hit |
| DictionaryRepository.EmptyRequestFindsAll | DataAccess/Repositories/DictionaryRepository.cs:85-92 | the empty request finds every record whose searched column is set |
| PatientRepository.CreatePatient | DataAccess/Repositories/PatientRepository.cs:20-35 | the patient table gains exactly one row with the model's fields, the registering doctor and the generated id |
| PatientRepository.FindInspection | DataAccess/Repositories/PatientRepository.cs:134 | returns the row with that key, or none exactly when no row has it |
| PatientRepository.Walk | DataAccess/Repositories/PatientRepository.cs:127-147 | a walk that returns a base names a stored inspection that starts its chain |
| PatientRepository.FindBaseInspectionId | DataAccess/Repositories/PatientRepository.cs:127-147 | a null, empty or missing id resolves to null; a chain root resolves to itself; a returned base starts its chain |
| PatientRepository.WalkForgetsVisited | DataAccess/Repositories/PatientRepository.cs:127-147 | the bookkeeping of visited ids never changes a walk that returns |
| PatientRepository.FindBaseFollowsLink | DataAccess/Repositories/PatientRepository.cs:141-146 | a non-root inspection resolves to whatever its base link resolves to |
| PatientRepository.FindBaseTerminates | DataAccess/Repositories/PatientRepository.cs:127-147 | when base links point to earlier rows, the resolution always returns |
| PatientRepository.BaseOfFollowUp | DataAccess/Repositories/PatientRepository.cs:127-147 | in a well-linked table, a follow-up of a chain root gets that root as base, and a follow-up of a later visit gets that visit's base |
| PatientRepository.AppendKeepsWellLinked | DataAccess/Repositories/PatientRepository.cs:58-125 | storing a new inspection whose base was resolved keeps the table well linked (unique ids, backward links to chain roots) |
| PatientRepository.FindIcd | DataAccess/Repositories/PatientRepository.cs:85 | returns the ICD-10 row with that id, or none exactly when there is none |
| PatientRepository.NewDiagnoses | DataAccess/Repositories/PatientRepository.cs:83-96 | fails only by a null dereference; otherwise one row per request |
| PatientRepository.NewDiagnosesElementwise | DataAccess/Repositories/PatientRepository.cs:83-96 | fails exactly when a requested diagnosis names a missing ICD-10 record; otherwise row `j` has request `j`'s fields, id `j` and the record's name |
| PatientRepository.BuildRow | DataAccess/Repositories/PatientRepository.cs:85-94 | one turn of the loop: a missing ICD-10 record is a null dereference, otherwise the row named after the record |
| PatientRepository.NewConsultations | DataAccess/Repositories/PatientRepository.cs:98-120 | one consultation per request |
| PatientRepository.SeedComments | DataAccess/Repositories/PatientRepository.cs:98-120 | one opening comment per requested consultation |
| PatientRepository.SeededCommentIsUnique | DataAccess/Repositories/PatientRepository.cs:98-120 | with fresh consultation ids, each new consultation has exactly one comment, which is its thread root |
| PatientRepository.BuildDiagnoses | DataAccess/Repositories/PatientRepository.cs:83-96 | the loop builds exactly the diagnosis rows specified above |
| PatientRepository.BuildConsultations | DataAccess/Repositories/PatientRepository.cs:98-120 | the loop builds exactly the consultation and comment rows specified above |
| PatientRepository.StoreInspection | DataAccess/Repositories/PatientRepository.cs:119-123 | the inspection, diagnosis, consultation and comment tables each gain exactly the new rows; the other tables are unchanged |
| PatientRepository.CreateInspection | DataAccess/Repositories/PatientRepository.cs:58-125 | a diverging base resolution or a missing ICD-10 record (a null dereference of the record's name) stores nothing; otherwise it stores the inspection with its resolved base, its diagnoses, consultations and opening comments, and returns the new id |
| PatientRepository.ListedPatients | DataAccess/Repositories/PatientRepository.cs:159-184 | a patient is listed exactly when it passes the name, own-patients, scheduled-visit and conclusion filters |
| PatientRepository.ListedInTableOrder | DataAccess/Repositories/PatientRepository.cs:159-184 | the `k`-th listed patient is the `k`-th table row that passes the filters |
| PatientRepository.LatestDate | DataAccess/Repositories/PatientRepository.cs:203-206 | the latest visit date of the patient's inspections, or none when no inspection has a date |
| PatientRepository.ArrangedPatients | DataAccess/Repositories/PatientRepository.cs:186-209 | the listed patients, as a permutation, in order by the requested key and direction |
| PatientRepository.ArrangedMembers | DataAccess/Repositories/PatientRepository.cs:186-209 | ordering adds and loses no patient |
| PatientRepository.PageOfListed | DataAccess/Repositories/PatientRepository.cs:195-230 | ordering keeps the number of listed patients, and a page of the ordered list shows only listed patients |
| PatientRepository.GetPatientsList | DataAccess/Repositories/PatientRepository.cs:149-244 | the page of arranged patients, with page info over all listed ones; at most `size` items, each a listed patient |
| InspectionRepository.IcdCode | DataAccess/Repositories/InspectionRepository.cs:75-78 | null when no record has the id; otherwise the code, possibly null, of the first record with the id |
| InspectionRepository.DiagnosesOf | DataAccess/Repositories/InspectionRepository.cs:71 | exactly the diagnoses that refer to the inspection |
| InspectionRepository.DiagnosesInTableOrder | DataAccess/Repositories/InspectionRepository.cs:71 | the `k`-th diagnosis of the inspection is the `k`-th row of the table that refers to it |
| InspectionRepository.MapDiagnoses | DataAccess/Repositories/InspectionRepository.cs:70-86 | the loop builds one diagnosis model per diagnosis, each with its record's code |
| InspectionRepository.SpecialityOf | DataAccess/Repositories/InspectionRepository.cs:98-109 | the speciality model keeps the consultation's speciality id; the name is present exactly when such a speciality exists |
| InspectionRepository.ConsultationView | DataAccess/Repositories/InspectionRepository.cs:110-138 | fails only by a null dereference; on success the consultation's id and inspection id are kept |
| InspectionRepository.ConsultationViewFindsRoot | DataAccess/Repositories/InspectionRepository.cs:112-137 | fails exactly when the thread has no root comment or its author is missing; otherwise shows that root, its author and the thread's size |
| InspectionRepository.ConsultationViews | DataAccess/Repositories/InspectionRepository.cs:88-141 | one view per consultation; failure is a null dereference |
| InspectionRepository.ConsultationViewsElementwise | DataAccess/Repositories/InspectionRepository.cs:88-141 | the list succeeds exactly when every view does, and then holds the views in order |
| InspectionRepository.ConsultationsOf | DataAccess/Repositories/InspectionRepository.cs:89 | exactly the inspection's consultations |
| InspectionRepository.MapConsultations | DataAccess/Repositories/InspectionRepository.cs:88-141 | the loop builds exactly the consultation views, or stops at the first failure |
| InspectionRepository.PatientOf | DataAccess/Repositories/InspectionRepository.cs:49-56 | the referenced patient, or none exactly when the reference is null or dangling |
| InspectionRepository.DoctorOf | DataAccess/Repositories/InspectionRepository.cs:57-67 | the referenced doctor, or none exactly when the reference is null or dangling |
| InspectionRepository.InspectionView | DataAccess/Repositories/InspectionRepository.cs:20-147 | a missing inspection fails with KeyNotFound, and only then; on success the scalars are copied, with a null date shown as now |
| InspectionRepository.GetInspection | DataAccess/Repositories/InspectionRepository.cs:20-147 | the method returns exactly the view |
| InspectionRepository.ViewListsDiagnoses | DataAccess/Repositories/InspectionRepository.cs:70-86 | the `k`-th diagnosis of a view is the model, with its record's code, of the `k`-th table row that refers to the inspection, and there are as many as there are such rows |
| InspectionRepository.ViewCountsThreads | DataAccess/Repositories/InspectionRepository.cs:88-141 | a view lists one consultation per consultation of the inspection, each counting the comments of its thread |
| InspectionRepository.ThreadsInTableOrder | DataAccess/Repositories/InspectionRepository.cs:88-141 | the `k`-th consultation model is built from the `k`-th table row that refers to the inspection and counts that thread's comments |
| InspectionRepository.CreatedConsultationView | DataAccess/Repositories/InspectionRepository.cs:88-141 | a consultation just created shows one comment, its opening comment, written by the creating doctor |
| EmailService.DueInspections | BusinessLogic/Services/EmailService.cs:21-22 | an inspection is due exactly when its next visit has passed and no log names it |
| EmailService.DueInTableOrder | BusinessLogic/Services/EmailService.cs:21-22 | the `k`-th due inspection is the `k`-th table row that is due |
| EmailService.ReminderFor | BusinessLogic/Services/EmailService.cs:16-36 | a reminder carries the inspection, and its patient and doctor exactly when the rows they refer to exist |
| EmailService.CheckInspections | BusinessLogic/Services/EmailService.cs:16-36 | null exactly when nothing is due; otherwise one reminder per due inspection, in order (DataAccess/Repositories/EmailRepository.cs:16-36 is the same query) |
| EmailService.AddNotification | BusinessLogic/Services/EmailService.cs:38-49 | one log is appended with the attempt's outcome, and the inspection is no longer due at any time |
| EmailService.AddNotificationWithMessage | BusinessLogic/Services/EmailService.cs:51-63 | as above, with the failure message |
| EmailService.MoreLogsFewerDue | BusinessLogic/Services/EmailService.cs:21-22 | adding logs removes from the due set exactly the inspections the new logs name |
| EmailService.LoggingEverySelectedClearsDueSet | BusinessLogic/Services/EmailService.cs:16-63 | once every selected inspection has been logged, nothing is due at that time |
| EmailRepository.AddNotification | DataAccess/Repositories/EmailRepository.cs:38-48 | one log with outcome false is appended, and the inspection is no longer due |
| ReportService.Bump | BusinessLogic/Services/ReportService.cs:92-98 | a counter starts at 0 when absent and goes up by one; every other counter is unchanged |
| ReportService.ParentlessCodes | BusinessLogic/Services/ReportService.cs:21-27 | one code per parentless record; every parentless record's code is listed and nothing else |
| ReportService.ParentlessInTableOrder | BusinessLogic/Services/ReportService.cs:21-27 | the `k`-th code is that of the `k`-th parentless table row |
| ReportService.RequestedCodes | BusinessLogic/Services/ReportService.cs:21-37 | with no ids, one entry per parentless record, listing exactly their codes; otherwise entry `k` is the code of the first record with id `k`, or null |
| ReportService.IcdCodeFound | BusinessLogic/Services/ReportService.cs:30-36 | an id resolves to a code exactly when the first record with that id has one |
| ReportService.RootsFound | BusinessLogic/Services/ReportService.cs:21-43 | no root is null exactly when, with no ids, every parentless record has a code, or, with ids, the first record with each id exists and has a code |
| ReportService.Codes | BusinessLogic/Services/ReportService.cs:40-43 | the roots once every one is known |
| ReportService.ZeroCounters | BusinessLogic/Services/ReportService.cs:54-58 | one counter per root, all 0 |
| ReportService.VisitIcd | BusinessLogic/Services/ReportService.cs:85-89 | a record found is an existing ICD-10 record named by a main diagnosis of the visit |
| ReportService.VisitIcdOfFirstMain | BusinessLogic/Services/ReportService.cs:85-89 | the record is the one named by the first main diagnosis, found exactly when it exists; no main diagnosis gives none |
| ReportService.Meet | BusinessLogic/Services/ReportService.cs:73-83 | a patient met for the first time is appended with a record of their name, birthday and gender and no visits; a known patient changes nothing |
| ReportService.Count | BusinessLogic/Services/ReportService.cs:92-98 | the patient's count and the summary for the code each go up by one; every other record and count is unchanged |
| ReportService.Classify | BusinessLogic/Services/ReportService.cs:85-99 | fails only by a null dereference (what it counts: `StepCountsFor`, `StepCounts`) |
| ReportService.Step | BusinessLogic/Services/ReportService.cs:73-99 | fails only by a null dereference (what it counts: `StepCountsFor`, `StepCounts`) |
| ReportService.StepCountsFor | BusinessLogic/Services/ReportService.cs:73-99 | one turn adds one to a patient's count for a root exactly when the visit is that patient's and lies under the root |
| ReportService.Run | BusinessLogic/Services/ReportService.cs:71-100 | fails only by a null dereference (what it counts: `RunCountsFor`, `RunCounts`) |
| ReportService.RunCountsFor | BusinessLogic/Services/ReportService.cs:71-100 | the loop adds to each patient's count for a root the number of that patient's visits under it |
| ReportService.RecordsInOrder | BusinessLogic/Services/ReportService.cs:102 | the records of the patients in the order they were met |
| ReportService.ReportOf | BusinessLogic/Services/ReportService.cs:17-105 | fails with KeyNotFound exactly when some root resolves to null (characterised by `RootsFound`), and otherwise fails only by a null dereference; the filters echo the period and roots |
| ReportService.ReportCountersAgree | BusinessLogic/Services/ReportService.cs:54-102 | every root's summary counter is the sum of that root's counts over the records |
| ReportService.ReportCountsVisits | BusinessLogic/Services/ReportService.cs:62-99 | every root has a summary counter, equal to the number of visits in the period whose main diagnosis lies under it |
| ReportService.ReportFailsOnBrokenVisit | BusinessLogic/Services/ReportService.cs:62-99 | with known roots, the report fails exactly when a visit in the period lacks a patient, a first-met patient lacks a birthday, or the main diagnosis or its record is missing |
| ReportService.ReportOneRecordPerPatient | BusinessLogic/Services/ReportService.cs:69-83 | there is one record per distinct patient with a visit in the period |
| ReportService.ReportRecordsDescribePatients | BusinessLogic/Services/ReportService.cs:69-102 | each record belongs to a patient of a visit in the period: it has their name, birthday and gender, counts under each root exactly their visits under it, and has keys for exactly the roots they visited |
| ReportService.RecordCounts | BusinessLogic/Services/ReportService.cs:71-100 | after the loop, every patient's record shows that patient and their visits under each root |
| ReportService.SingleVisitReport | BusinessLogic/Services/ReportService.cs:17-105 | one visit under root `A00`, with all roots requested, gives summary `{A00: 1}` and one record with `{A00: 1}` |
| ReportService.FindRoots | BusinessLogic/Services/ReportService.cs:19-38 | the root resolution returns exactly the requested codes |
| ReportService.ZeroSummary | BusinessLogic/Services/ReportService.cs:54-58 | the loop builds exactly the zeroed counters |
| ReportService.CountVisit | BusinessLogic/Services/ReportService.cs:92-98 | initialising the patient's counter when absent and incrementing it and the summary counter is exactly one `Count` |
| ReportService.ClassifyVisit | BusinessLogic/Services/ReportService.cs:85-99 | the counting part of one turn is exactly the specified classification |
| ReportService.Visit | BusinessLogic/Services/ReportService.cs:73-99 | one turn of the loop is exactly the specified step, and it keeps the summary's keys |
| ReportService.CountVisits | BusinessLogic/Services/ReportService.cs:69-100 | the loop over the period's visits is exactly the specified run |
| ReportService.GetReport | BusinessLogic/Services/ReportService.cs:17-105 | returns exactly the specified report |

## Left out

- Sending email (SMTP), the scheduled jobs and the hosting setup are I/O and
  are not part of this model. Only the queries and logs the reminder job
  uses are modelled.
- The reminder job's `catch (Exception) { break; }` path is not modelled: a
  send that fails with anything other than an SMTP command error (missing
  credentials, a failed connection or authentication) logs nothing, ends
  the run, and leaves that inspection and the ones after it due for the
  next run. `EmailService.LoggingEverySelectedClearsDueSet` covers only
  runs in which every selected inspection was logged.
- The token registry is a `ConcurrentDictionary` shared between requests;
  the model is sequential.
- The other controllers (patients, inspections, consultations, dictionary,
  report, email) only check authorisation and delegate to the services
  above; they are not part of this model. Neither are the `Logout` and
  `GetProfile` actions of the doctor controller: they only chain
  `TokenService.RemoveToken`, `TokenService.GetUserIdByToken` and
  `DoctorService.GetProfile`, which are modelled.
- The services that only forward to a repository are not modelled
  separately; the repository operation is.
- The consultation and inspection services outside the named operations
  (editing, comments, listing) are not part of this model.
- The database's own row order is not specified by the source. The model
  takes table order wherever a query has no `OrderBy`.
- String comparison, `Contains` and `ToLower` use ordinal comparison and
  lower-case only Latin and basic Cyrillic letters. Culture rules and
  Unicode normalisation are not modelled.
- `DictionaryRepository.SearchForDiagnoses`: whether the request has the
  form of an ICD-10 code is a boolean parameter, because the pattern used
  is not part of this model.
- JWT creation and signing are not modelled; a signed token is a parameter.
- ASP.NET model binding is not modelled: `ModelState.IsValid` before the
  endpoint's own checks is a boolean parameter.
- `DoctorController.RegisterOutcome`, `DoctorController.ProfileOutcome` and
  `DoctorController.ChangeProfile` with an invalid incoming model state
  model the action body only. The doctor controller is an
  `[ApiController]`, so in the running program the framework answers such
  a request with 400 before the action runs. The model instead gives the
  answer the action body would give, which can be the missing-speciality
  error or 401.
- `RegexPatterns.IsDigit` and `RegexPatterns.IsWordChar`: `IsDigit` accepts
  only ASCII digits; `IsWordChar` accepts only Latin and basic Russian
  letters (А–я, Ё, ё), ASCII digits and `_`. The patterns are matched
  without `RegexOptions.ECMAScript`, so .NET's `\d` is every Unicode
  decimal digit and `\w` every Unicode word character. Phones, emails and
  passwords using other scripts' digits or letters (say `+7` followed by
  Arabic-Indic digits, or `é@mail.ru`) are accepted by the program and
  rejected by the model.
- Error messages are modelled by their keys.
- `DoctorController.RegisterErrorsExact` and
  `DoctorController.ProfileErrorsExact` state which keys are recorded.
  They do not state the order of the keys.
- `InspectionRepository.ConsultationView` states only the failure kind and
  the copied ids. What the view shows is stated by
  `InspectionRepository.ConsultationViewFindsRoot`.
- `ReportService.Classify` states only the failure kind. What one turn
  counts is stated by `ReportService.StepCountsFor` and
  `ReportService.StepCounts`.
- `ReportService.Step` states only the failure kind. What it counts is
  stated by `ReportService.StepCountsFor` and `ReportService.StepCounts`.
- `ReportService.Run` states only the failure kind. What it counts is
  stated by `ReportService.RunCountsFor`, `ReportService.RunCounts`,
  `ReportService.ReportCountsVisits`,
  `ReportService.ReportRecordsDescribePatients` and
  `ReportService.ReportCountersAgree`.
- `ReportService.VisitIcd` states in its own contract only that a record
  found is named by a main diagnosis. That it is the first main
  diagnosis's record, found whenever it exists, is stated by
  `ReportService.VisitIcdOfFirstMain`.
- `InspectionRepository.DiagnosesOf` states membership only. The order is
  stated by `InspectionRepository.DiagnosesInTableOrder`.
- `PatientRepository.NewDiagnoses` states only the failure kind and the
  length. Which rows it builds is stated by
  `PatientRepository.NewDiagnosesElementwise`.
- `PatientRepository.FindBaseInspectionId`: recursion that never returns is
  the outcome `Diverges`. It is detected by an id being visited twice.
- Integer widths are not modelled. The report counters, page numbers and
  page sizes are unbounded.
- The paged listings require a positive page number and size, which the
  controllers check before calling them (for instance
  WebApi/Controllers/PatientController.cs:140).
