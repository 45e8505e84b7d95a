# JavaPracExc data and validation layer, in Dafny

This project models the data and validation layer of the JavaPracExc coursework
programs. It leaves out the Swing screens, the file and JDBC plumbing and the
dialog loops that sit around that layer. Each modelled Java class becomes one
Dafny module:

- `AppointmentRecord`, `AppointmentOrder` and `AppointmentBook` model the
  meeting calendar (Int-PracExc4). An `Appointment` holds a name, a day and an
  hour that are clamped on write and again on read. An `AppointmentFactory`
  keeps one month's appointments, with unique names and Gregorian month lengths.
  It can search them and sorts them by (day, hour, name) for display.
- `EmployeeRecords` models `EmployeeConnection` (Int-PracExc7). It covers field
  normalisation, the validation ladders that report the first failing check,
  and the `push` decision trees over the database's answers.
- `LoginAccess` and `LoginAccessLegacy` model the two `LoginConnection`
  versions. Each maps the answers to its user queries to a status code. The
  older version also keeps track of the most recent error.
- `DatabaseSettings` models the `DBConnection` constructors, `isValid` and
  `buildURL`.
- `StudentRecords`, `StudentBuilder`, `StudentOrder` and `StudentMenu` model the
  student register (Int-PracExc3). They cover students and their case-insensitive
  IDs, the factory's validation ladder and name pattern, the two comparators,
  and the menu's lookup, search, sorting and " -" (inverted) suffix.
- `BookShop` models the ten-slot book catalogue (Beg-PracExc4). It covers
  first-free-slot insertion with unique IDs in 1000..9999, the bubble sort by
  price over a clone, and the title search.
- `HotelBooking` models room bookings, which are keyed by kind and room
  number (Beg-PracExc5).
- `PatientAddress` and `PatientRecord` model `Address` and `Patient`
  (Beg-PracticalExercise2). Their getters repair invalid values by writing
  defaults back, and their setters ignore invalid input.
- `JavaLang` specifies the Java library behaviour the code relies on:
  - `Integer.parseInt`, with an optional sign, decimal digits and the 32-bit range;
  - `String.valueOf(int)`;
  - ASCII case folding;
  - `contains`, `indexOf`, `endsWith`, `replace`, `trim` and `compareTo`;
  - `Collections.reverse`.

Objects whose fields the Java code updates are Dafny classes with `modifies`
clauses. This includes the getters that write repaired values back. Each
method is proved against a specification function over its fields. Java `null`
is `None` of `Option`. The database, the files and the clock appear only as
parameters:
- `Server` and `Database` values hold the answers to queries and the update counts.
- A `StoredFile` value is what deserialisation produced.
- A `commitOk` flag is the outcome of saving.

Points where the code does something other than its comments or names suggest:

- `StudentFactory.validateName` accepts names of two or more characters. The
  pattern is `{2,}`, while the comment above it says `{3,}`.
- `AppointmentFactory.load` returns false for a missing file, because it
  catches the `IOException`, and the list stays empty.
- `addAppointment(Appointment)` checks only the name and the day, so it accepts
  an appointment whose hour is above 24. The next load checks the hour as
  `getHour` reads it back (clamped to [1,31]) against `validateHour`'s 1..24,
  and drops that entry.

## Model

| member | source | states |
|---|---|---|
| AppointmentRecord.CutName | Int-PracExc4/src/classes/Appointment.java:73-79 | a name over 20 characters is cut to its first 19; a shorter one is kept; the result never exceeds 20 |
| AppointmentRecord.NameOf | Int-PracExc4/src/classes/Appointment.java:112-118 | getName's value is never over 20 characters and is the stored name when that is short enough |
| AppointmentRecord.DayOf | Int-PracExc4/src/classes/Appointment.java:125-128 | getDay's value lies in [1,31] |
| AppointmentRecord.HourOf | Int-PracExc4/src/classes/Appointment.java:135-138 | getHour's value lies in [1,31] (the read bound, not setHour's 24) |
| AppointmentRecord.Observed | Int-PracExc4/src/classes/Appointment.java:112-138 | after the three getters the name is non-null and at most 20 characters, the day and hour lie in [1,31], and reading each field again returns what the getters first returned |
| AppointmentRecord.ObservedIsStable | Int-PracExc4/src/classes/Appointment.java:112-138 | a second read of any field returns what the first read returned and wrote back; toString text is unchanged by reading |
| AppointmentRecord.HourReadBoundIsLooserThanWriteBound | Int-PracExc4/src/classes/Appointment.java:135-138 | a stored hour in 25..31 is read back unchanged, above setHour's bound |
| AppointmentRecord.Appointment.constructor | Int-PracExc4/src/classes/Appointment.java:56-62 | stores name, day and hour unchanged, without clamping |
| AppointmentRecord.Appointment.New | Int-PracExc4/src/classes/Appointment.java:56-62 | a null name raises IllegalArgumentException (None); otherwise a fresh object with the three values |
| AppointmentRecord.Appointment.SetName | Int-PracExc4/src/classes/Appointment.java:73-79 | null is refused and changes nothing; otherwise the cut name is stored and nothing else changes |
| AppointmentRecord.Appointment.SetDay | Int-PracExc4/src/classes/Appointment.java:89-92 | the day becomes the argument clamped into [1,31]; the other fields are unchanged |
| AppointmentRecord.Appointment.SetHour | Int-PracExc4/src/classes/Appointment.java:102-105 | the hour becomes the argument clamped into [1,24]; the other fields are unchanged |
| AppointmentRecord.Appointment.GetName | Int-PracExc4/src/classes/Appointment.java:112-118 | returns a non-null name of at most 20 characters ("NULL" for null) and stores it |
| AppointmentRecord.Appointment.GetDay | Int-PracExc4/src/classes/Appointment.java:125-128 | returns the day clamped into [1,31] and writes it back |
| AppointmentRecord.Appointment.GetHour | Int-PracExc4/src/classes/Appointment.java:135-138 | returns the hour clamped into [1,31] and writes it back |
| AppointmentRecord.Appointment.ToString | Int-PracExc4/src/classes/Appointment.java:146-152 | the HTML row of the getters' values; afterwards the fields hold what the getters read |
| AppointmentOrder.DisplayCompareAntisymmetric | Int-PracExc4/src/classes/AppointmentFactory.java:488-498 | toString's comparator gives opposite signs when its arguments are swapped |
| AppointmentOrder.DisplayCompareZero | Int-PracExc4/src/classes/AppointmentFactory.java:488-498 | the comparator is 0 exactly when day, hour and name all agree |
| AppointmentOrder.DisplayCompareTransitive | Int-PracExc4/src/classes/AppointmentFactory.java:488-498 | the comparator's order is transitive |
| AppointmentOrder.InsertSorted | Int-PracExc4/src/classes/AppointmentFactory.java:486-498 | inserting an entry into a display-sorted list keeps it display-sorted |
| AppointmentOrder.InsertDistinct | Int-PracExc4/src/classes/AppointmentFactory.java:486-498 | inserting an entry whose name is new keeps names pairwise distinct |
| AppointmentOrder.SortForDisplayIsSortedPermutation | Int-PracExc4/src/classes/AppointmentFactory.java:486-498 | sorting for display yields the same entries ordered by day, then hour, then name |
| AppointmentOrder.SortForDisplayDistinct | Int-PracExc4/src/classes/AppointmentFactory.java:486-498 | sorting keeps names pairwise distinct |
| AppointmentOrder.SortedDistinctIsUnique | Int-PracExc4/src/classes/AppointmentFactory.java:488-498 | two sorted orderings of the same distinct-named entries are equal, so the sort's result is determined |
| AppointmentOrder.SortForDisplayOfSorted | Int-PracExc4/src/classes/AppointmentFactory.java:486-498 | sorting an already sorted distinct-named list changes nothing |
| AppointmentOrder.ObserveAllKeepsOrder | Int-PracExc4/src/classes/AppointmentFactory.java:505-506 | reading entries back (hours clamped to 31) keeps a list display-sorted iff it was, and its names distinct iff they were |
| AppointmentOrder.RowsHtmlOfObserved | Int-PracExc4/src/classes/AppointmentFactory.java:505-506 | the rows of entries already read back are the rows of the original entries |
| AppointmentOrder.ToStringTwiceSameText | Int-PracExc4/src/classes/AppointmentFactory.java:486-509 | a second toString produces the same table text as the first |
| AppointmentBook.DaysInMonth | Int-PracExc4/src/classes/AppointmentFactory.java:168-171 | the Gregorian length (28..31) of a 0-based month; February has 29 days exactly in leap years |
| AppointmentBook.YearLength | Int-PracExc4/src/classes/AppointmentFactory.java:168-171 | the twelve month lengths add up to 366 in leap years and 365 otherwise |
| AppointmentBook.TextValidationAgreesWithInt | Int-PracExc4/src/classes/AppointmentFactory.java:180-223 | the String overloads of validateDay/validateHour agree with the int ones on every int's decimal text |
| AppointmentBook.WellFormedReadsBack | Int-PracExc4/src/classes/AppointmentFactory.java:247-255 | an entry the month keeps reads back its own name and day and stays well formed when read |
| AppointmentBook.AbsorbKeepsInvariant | Int-PracExc4/src/classes/AppointmentFactory.java:403-407 | load's per-entry filter only appends, keeps every kept entry valid and names distinct, and completes iff every element is an Appointment |
| AppointmentBook.CommitThenLoad | Int-PracExc4/src/classes/AppointmentFactory.java:361-433 | loading what commit wrote restores the list when every stored hour is in 1..24 |
| AppointmentBook.LateHourIsDroppedOnReload | Int-PracExc4/src/classes/AppointmentFactory.java:348-354 | an appointment added with an hour above 24 is accepted by the add but dropped by the next load |
| AppointmentBook.MatchingMembers | Int-PracExc4/src/classes/AppointmentFactory.java:297-307 | the filter keeps exactly the entries whose name contains the term (lower-cased unless case-sensitive) |
| AppointmentBook.MatchingAppend | Int-PracExc4/src/classes/AppointmentFactory.java:297-307 | the filter keeps list order: filtering a concatenation concatenates the filtered parts |
| AppointmentBook.MatchingEmptyTerm | Int-PracExc4/src/classes/AppointmentFactory.java:297-307 | the empty term keeps every entry |
| AppointmentBook.CaseSensitiveMatchIsInsensitiveMatch | Int-PracExc4/src/classes/AppointmentFactory.java:297-307 | every case-sensitive match is also a case-insensitive match |
| AppointmentBook.FormattedRows | Int-PracExc4/src/classes/AppointmentFactory.java:442-456 | formatData fills at most one row per list element |
| AppointmentBook.FormattedRowsWithoutNulls | Int-PracExc4/src/classes/AppointmentFactory.java:442-456 | without null entries every appointment's row is at its own index |
| AppointmentBook.FormatData | Int-PracExc4/src/classes/AppointmentFactory.java:442-456 | a null or empty list gives no rows; otherwise one row per element, filled rows first |
| AppointmentBook.AppointmentFactory.Days | Int-PracExc4/src/classes/AppointmentFactory.java:168-171 | getDays is the Gregorian length of the current month, in 28..31 |
| AppointmentBook.AppointmentFactory.constructor | Int-PracExc4/src/classes/AppointmentFactory.java:83-88 | month and year are clamped, then the month's file is loaded; the invariant holds |
| AppointmentBook.AppointmentFactory.SetMonth | Int-PracExc4/src/classes/AppointmentFactory.java:136-143 | the month is clamped into January..December and the list is emptied |
| AppointmentBook.AppointmentFactory.SetYear | Int-PracExc4/src/classes/AppointmentFactory.java:154-161 | the year is clamped into 1970..2100 and the list is emptied |
| AppointmentBook.AppointmentFactory.ValidateDay | Int-PracExc4/src/classes/AppointmentFactory.java:180-186 | true iff 1 <= day <= getDays() |
| AppointmentBook.AppointmentFactory.ValidateDayText | Int-PracExc4/src/classes/AppointmentFactory.java:195-197 | false on text that is not a Java int; otherwise validateDay of its value |
| AppointmentBook.AppointmentFactory.ValidateHour | Int-PracExc4/src/classes/AppointmentFactory.java:206-212 | true iff 1 <= hour <= 24 |
| AppointmentBook.AppointmentFactory.ValidateHourText | Int-PracExc4/src/classes/AppointmentFactory.java:221-223 | false on text that is not a Java int; otherwise validateHour of its value |
| AppointmentBook.AppointmentFactory.Contains | Int-PracExc4/src/classes/AppointmentFactory.java:280-287 | -1 iff the name is null or unused; otherwise the least index with exactly that name |
| AppointmentBook.AppointmentFactory.ValidateName | Int-PracExc4/src/classes/AppointmentFactory.java:233-235 | true iff non-null, 1..20 characters and not used this month |
| AppointmentBook.AppointmentFactory.ValidateAppointment | Int-PracExc4/src/classes/AppointmentFactory.java:247-255 | null is refused; otherwise name, day and hour as read back must each pass validation |
| AppointmentBook.AppointmentFactory.ValidateObject | Int-PracExc4/src/classes/AppointmentFactory.java:267-271 | anything that is not an Appointment is refused; an Appointment is validated as above |
| AppointmentBook.AppointmentFactory.Search | Int-PracExc4/src/classes/AppointmentFactory.java:297-307 | exactly the entries whose name contains the term, in list order; the empty term returns them all |
| AppointmentBook.AppointmentFactory.AddEntry | Int-PracExc4/src/classes/AppointmentFactory.java:348-354 | a refused entry changes nothing and gives false; otherwise the entry is appended and the result is the commit outcome |
| AppointmentBook.AppointmentFactory.AddAppointment | Int-PracExc4/src/classes/AppointmentFactory.java:328-338 | any failed validation gives false and no change; otherwise exactly one entry is appended and the commit outcome returned |
| AppointmentBook.AppointmentFactory.Delete | Int-PracExc4/src/classes/AppointmentFactory.java:474-479 | no match gives false and no change; otherwise exactly the first match is removed, the rest in order, and the commit outcome returned |
| AppointmentBook.AppointmentFactory.CountAppointments | Int-PracExc4/src/classes/AppointmentFactory.java:463-465 | the number of appointments in the list |
| AppointmentBook.AppointmentFactory.GetAppointments | Int-PracExc4/src/classes/AppointmentFactory.java:314-316 | the list, as many entries as countAppointments, with distinct names and valid days |
| AppointmentBook.AppointmentFactory.Load | Int-PracExc4/src/classes/AppointmentFactory.java:395-433 | an unreadable file gives false; a foreign object gives false and deletes the file; otherwise each valid entry is appended |
| AppointmentBook.AppointmentFactory.ToString | Int-PracExc4/src/classes/AppointmentFactory.java:486-509 | the list is sorted in place by (day, hour, name), read back, and listed as an HTML table; the invariant is kept |
| AppointmentBook.TableRows | Int-PracExc4/src/classes/AppointmentFactory.java:505-506 | the loop's text is the rows of the sorted list, and each entry is left as read back |
| AppointmentBook.DisplayListKeepsInvariant | Int-PracExc4/src/classes/AppointmentFactory.java:486-509 | what toString leaves keeps valid days, distinct names and display order |
| EmployeeRecords.CanonicalIsStable | Int-PracExc7/src/database/EmployeeConnection.java:273-325 | rewriting a BSB or account number through its setter twice is rewriting it once |
| EmployeeRecords.BSBValidIffSixDigitValue | Int-PracExc7/src/database/EmployeeConnection.java:375-379 | validateBSB holds iff the text parses to an int in 100000..999999 |
| EmployeeRecords.AccountValidIffPositive | Int-PracExc7/src/database/EmployeeConnection.java:386-390 | validateAccountNumber holds iff the text parses to a positive int |
| EmployeeRecords.LeadingZeroBSBIsInvalid | Int-PracExc7/src/database/EmployeeConnection.java:289-291 | a six-digit BSB with a leading zero, such as "012345", fails |
| EmployeeRecords.FirstFailure | Int-PracExc7/src/database/EmployeeConnection.java:425-441 | a ladder gives VALID iff every check passes, otherwise the code of the first failing check |
| EmployeeRecords.FirstFailureAppend | Int-PracExc7/src/database/EmployeeConnection.java:425-441 | once the first checks pass, a longer ladder goes on as its remainder |
| EmployeeRecords.LaddersReportFirstFailure | Int-PracExc7/src/database/EmployeeConnection.java:425-475 | the three result methods report the first failure in the order ID, first name, last name, bank, BSB, account; VALID iff validatePackage holds |
| EmployeeRecords.UpdateCode | Int-PracExc7/src/database/EmployeeConnection.java:527-529 | an update count maps to SUCCESS if > 0, SQL_ERROR if < 0, DRIVER_ERROR if 0 |
| EmployeeRecords.PushPhases | Int-PracExc7/src/database/EmployeeConnection.java:526-660 | a validation failure returns the ladder's code with no statement issued; the code is a transaction code iff validation passed |
| EmployeeRecords.ExistenceRules | Int-PracExc7/src/database/EmployeeConnection.java:526-589 | an existing employee without override gives DUPLICATE_EMPLOYEE, a missing one UNKNOWN_EMPLOYEE for the bank, an existing bank without override DUPLICATE_BANK, with nothing issued |
| EmployeeRecords.PushNewEmployee | Int-PracExc7/src/database/EmployeeConnection.java:643-658 | for a new employee the bank row is inserted iff the employee insert count is positive; otherwise SQL_ERROR |
| EmployeeRecords.NoOverrideNeverUpdates | Int-PracExc7/src/database/EmployeeConnection.java:540-541 | without override no UPDATE statement is ever issued |
| EmployeeRecords.AfterChecksKeepOutcome | Int-PracExc7/src/database/EmployeeConnection.java:397-418 | the rewriting done by validation changes no check's outcome and is idempotent |
| EmployeeRecords.EmployeeConnection.constructor | Int-PracExc7/src/database/EmployeeConnection.java:153-173 | every null argument is stored as "" |
| EmployeeRecords.EmployeeConnection.WithId | Int-PracExc7/src/database/EmployeeConnection.java:128-130 | only the ID is given; every other field is "" |
| EmployeeRecords.EmployeeConnection.WithNames | Int-PracExc7/src/database/EmployeeConnection.java:139-141 | the bank fields are "" |
| EmployeeRecords.EmployeeConnection.SetFirstName | Int-PracExc7/src/database/EmployeeConnection.java:239-243 | null becomes ""; nothing else changes |
| EmployeeRecords.EmployeeConnection.SetLastName | Int-PracExc7/src/database/EmployeeConnection.java:250-254 | null becomes ""; nothing else changes |
| EmployeeRecords.EmployeeConnection.SetBank | Int-PracExc7/src/database/EmployeeConnection.java:261-265 | null becomes ""; nothing else changes |
| EmployeeRecords.EmployeeConnection.SetBSBNumber | Int-PracExc7/src/database/EmployeeConnection.java:273-295 | true iff the value is positive, storing its decimal text; otherwise nothing changes |
| EmployeeRecords.EmployeeConnection.SetBSBText | Int-PracExc7/src/database/EmployeeConnection.java:273-295 | true iff the text parses to a positive int, storing its canonical text; otherwise nothing changes |
| EmployeeRecords.EmployeeConnection.SetAccountNumberValue | Int-PracExc7/src/database/EmployeeConnection.java:303-325 | true iff the value is positive, storing its decimal text; otherwise nothing changes |
| EmployeeRecords.EmployeeConnection.SetAccountNumberText | Int-PracExc7/src/database/EmployeeConnection.java:303-325 | true iff the text parses to a positive int, storing its canonical text; otherwise nothing changes |
| EmployeeRecords.EmployeeConnection.GetBSB | Int-PracExc7/src/database/EmployeeConnection.java:219-222 | rewrites the BSB through its setter and returns it |
| EmployeeRecords.EmployeeConnection.GetAccountNumber | Int-PracExc7/src/database/EmployeeConnection.java:229-232 | rewrites the account number through its setter and returns it |
| EmployeeRecords.EmployeeConnection.ValidateID | Int-PracExc7/src/database/EmployeeConnection.java:332-341 | true iff the ID is non-empty and a Java int, negative values included |
| EmployeeRecords.EmployeeConnection.ValidateFirstName | Int-PracExc7/src/database/EmployeeConnection.java:348-350 | true iff the first name has 1..20 characters |
| EmployeeRecords.EmployeeConnection.ValidateLastName | Int-PracExc7/src/database/EmployeeConnection.java:357-359 | true iff the last name has 1..20 characters |
| EmployeeRecords.EmployeeConnection.ValidateBank | Int-PracExc7/src/database/EmployeeConnection.java:366-368 | true iff the bank name has 1..30 characters |
| EmployeeRecords.EmployeeConnection.ValidateBSB | Int-PracExc7/src/database/EmployeeConnection.java:375-379 | rewrites the BSB, then requires exactly 6 characters |
| EmployeeRecords.EmployeeConnection.ValidateAccountNumber | Int-PracExc7/src/database/EmployeeConnection.java:386-390 | rewrites the account number, then requires 1..11 characters |
| EmployeeRecords.EmployeeConnection.ValidateEmployeePackage | Int-PracExc7/src/database/EmployeeConnection.java:407-409 | true iff ID, first and last name pass |
| EmployeeRecords.EmployeeConnection.ValidateBankPackage | Int-PracExc7/src/database/EmployeeConnection.java:416-418 | true iff bank, BSB and account pass; the BSB and account are rewritten as the checks run |
| EmployeeRecords.EmployeeConnection.ValidatePackage | Int-PracExc7/src/database/EmployeeConnection.java:397-400 | true iff both packages pass; the bank checks run only after the employee checks pass |
| EmployeeRecords.EmployeeConnection.ValidateEmployeePackageResult | Int-PracExc7/src/database/EmployeeConnection.java:448-458 | the code of the first failing employee check, or VALID |
| EmployeeRecords.EmployeeConnection.ValidateBankPackageResult | Int-PracExc7/src/database/EmployeeConnection.java:465-475 | the code of the first failing bank check, or VALID |
| EmployeeRecords.EmployeeConnection.ValidatePackageResult | Int-PracExc7/src/database/EmployeeConnection.java:425-441 | the code of the first failing check of all six, or VALID |
| EmployeeRecords.EmployeeConnection.PushEmployee | Int-PracExc7/src/database/EmployeeConnection.java:526-551 | the pushEmployee decision tree over the database's answers |
| EmployeeRecords.EmployeeConnection.PushBank | Int-PracExc7/src/database/EmployeeConnection.java:560-589 | the pushBank decision tree over the database's answers |
| EmployeeRecords.EmployeeConnection.Push | Int-PracExc7/src/database/EmployeeConnection.java:598-660 | the push decision tree: the employee row first, then the bank row |
| LoginAccess.StatusCodesAreDistinct | Int-PracExc7/src/database/LoginConnection.java:46-76 | the seven status codes are 0..6, distinct, with ACCESS_ADMIN the greatest |
| LoginAccess.StatusOn | Int-PracExc7/src/database/LoginConnection.java:240-268 | every status lies between SQL_ERROR and ACCESS_ADMIN |
| LoginAccess.Status | Int-PracExc7/src/database/LoginConnection.java:224-230 | SQL_ERROR when the connection cannot be opened |
| LoginAccess.UsernameCheckedBeforePassword | Int-PracExc7/src/database/LoginConnection.java:240-244 | an unknown user gives INVALID_USERNAME whatever the password; a known user with a wrong password gives INVALID_PASSWORD |
| LoginAccess.AccessNeedsMatchingPassword | Int-PracExc7/src/database/LoginConnection.java:255-264 | access is granted iff the user exists, the password matches and the row is enabled; ACCESS_ADMIN iff the level is at least 2 as well |
| LoginAccess.NoResultSetStatus | Int-PracExc7/src/database/LoginConnection.java:250-254 | no result set gives SQL_ERROR after a recorded error and DRIVER_ERROR otherwise; no row gives INVALID_USERNAME |
| LoginAccess.LoginConnection.constructor | Int-PracExc7/src/database/LoginConnection.java:90-93 | stores user name and password as given |
| LoginAccess.LoginConnection.SetUsername | Int-PracExc7/src/database/LoginConnection.java:122-126 | null becomes "" |
| LoginAccess.LoginConnection.SetPassword | Int-PracExc7/src/database/LoginConnection.java:133-137 | null becomes "" |
| LoginAccess.LoginConnection.GetUsername | Int-PracExc7/src/database/LoginConnection.java:101-104 | never null: a null name is stored back as "" |
| LoginAccess.LoginConnection.GetPassword | Int-PracExc7/src/database/LoginConnection.java:112-115 | never null: a null password is stored back as "" |
| LoginAccess.LoginConnection.UserExists | Int-PracExc7/src/database/LoginConnection.java:160-174 | false for a null connection; otherwise whether the user row exists |
| LoginAccess.LoginConnection.UserExistsFresh | Int-PracExc7/src/database/LoginConnection.java:145-151 | false when the connection cannot be opened, otherwise whether the user exists; the user name is stored back non-null only when connected, the password is untouched |
| LoginAccess.LoginConnection.PasswordMatches | Int-PracExc7/src/database/LoginConnection.java:197-215 | true only if the user exists and the stored password equals the password exactly |
| LoginAccess.LoginConnection.PasswordMatchesFresh | Int-PracExc7/src/database/LoginConnection.java:182-188 | false when the connection cannot be opened, otherwise whether the stored password equals the given one; the user name (when connected) and the password (when its row was read) are stored back non-null, otherwise unchanged |
| LoginAccess.LoginConnection.AccountStatus | Int-PracExc7/src/database/LoginConnection.java:240-268 | the status ladder over the three queries' answers |
| LoginAccess.LoginConnection.AccountStatusFresh | Int-PracExc7/src/database/LoginConnection.java:224-230 | SQL_ERROR when the connection cannot be opened, otherwise the ladder; the user name (when connected) and the password (when its row was read) are stored back non-null, otherwise unchanged |
| LoginAccessLegacy.StatusCodesAreDistinct | Int-PracExc6/src/database/LoginConnection.java:46-51 | the six status codes are 0..5 and distinct |
| LoginAccessLegacy.RecentAfter | Int-PracExc6/src/database/LoginConnection.java:190-197 | after a query that threw, `recent` is the exception; after one that succeeded it is null |
| LoginAccessLegacy.StatusOn | Int-PracExc6/src/database/LoginConnection.java:269-300 | every status lies between SQL_ERROR and ACCESS_ADMIN |
| LoginAccessLegacy.RecentReflectsLastQuery | Int-PracExc6/src/database/LoginConnection.java:282-298 | a granted or disabled status leaves `recent` null; SQL_ERROR leaves the failing query's exception or the earlier value |
| LoginAccessLegacy.UsernameCheckedBeforePassword | Int-PracExc6/src/database/LoginConnection.java:269-273 | INVALID_USERNAME comes before INVALID_PASSWORD, and access needs the matching password |
| LoginAccessLegacy.LoginConnection.constructor | Int-PracExc6/src/database/LoginConnection.java:88-91 | stores both values; no recent error |
| LoginAccessLegacy.LoginConnection.GetUsername | Int-PracExc6/src/database/LoginConnection.java:99-102 | never null: null is stored back as "" |
| LoginAccessLegacy.LoginConnection.GetPassword | Int-PracExc6/src/database/LoginConnection.java:110-113 | never null: null is stored back as "" |
| LoginAccessLegacy.LoginConnection.GetRecentError | Int-PracExc6/src/database/LoginConnection.java:155-157 | the most recent error |
| LoginAccessLegacy.LoginConnection.UserExists | Int-PracExc6/src/database/LoginConnection.java:180-198 | whether the user row exists; `recent` is updated for the query |
| LoginAccessLegacy.LoginConnection.PasswordMatches | Int-PracExc6/src/database/LoginConnection.java:221-245 | the user exists and the stored password matches exactly; `recent` is updated |
| LoginAccessLegacy.LoginConnection.AccountStatus | Int-PracExc6/src/database/LoginConnection.java:269-300 | the status ladder, with `recent` reflecting the last query; the user name (when there is a connection) and the password (when its row was read) are stored back non-null, otherwise unchanged |
| LoginAccessLegacy.LoginConnection.AccountStatusFresh | Int-PracExc6/src/database/LoginConnection.java:254-260 | SQL_ERROR with `recent` and both fields unchanged when the connection cannot be opened; otherwise the ladder, with `recent` after the status queries and the write-backs of the getters |
| DatabaseSettings.Create | Int-PracExc7/src/database/DBConnection.java:81-91 | null strings raise IllegalArgumentException; a port below 1 becomes 3306; the object is valid |
| DatabaseSettings.CreateWithoutPort | Int-PracExc7/src/database/DBConnection.java:102-104 | the default port |
| DatabaseSettings.CreateForDatabase | Int-PracExc7/src/database/DBConnection.java:113-115 | the default port and the built-in account |
| DatabaseSettings.CreateDefault | Int-PracExc7/src/database/DBConnection.java:121-123 | every detail built in |
| DatabaseSettings.BuildURL | Int-PracExc7/src/database/DBConnection.java:225-234 | null exactly when the settings are not valid |
| DatabaseSettings.CreatedURL | Int-PracExc7/src/database/DBConnection.java:225-234 | a constructed object's URL is "jdbc:mysql://host:port/database?autoreconnect=true" |
| DatabaseSettings.URLDeterminesHostPortDatabase | Int-PracExc7/src/database/DBConnection.java:225-234 | two valid objects have the same URL iff host, port and database agree |
| DatabaseSettings.PortTextHasNoSlash | Int-PracExc7/src/database/DBConnection.java:225-234 | the port's text holds no "/" |
| StudentRecords.StudentTextFrames | Int-PracExc3/src/objects/Student.java:147-155 | toString starts with "ID: " and the ID and ends with the course |
| StudentRecords.Student.constructor | Int-PracExc3/src/objects/Student.java:36-43 | non-null arguments are stored unchanged |
| StudentRecords.Student.WithId | Int-PracExc3/src/objects/Student.java:51-53 | the other fields are "" |
| StudentRecords.Student.Sample | Int-PracExc3/src/objects/Student.java:59-61 | the sample record |
| StudentRecords.Student.New | Int-PracExc3/src/objects/Student.java:36-43 | any null argument raises IllegalArgumentException (None); otherwise a fresh student with the four values |
| StudentRecords.Student.SetFirstName | Int-PracExc3/src/objects/Student.java:96-100 | null becomes ""; nothing else changes |
| StudentRecords.Student.SetLastName | Int-PracExc3/src/objects/Student.java:116-120 | null becomes ""; nothing else changes |
| StudentRecords.Student.SetCourse | Int-PracExc3/src/objects/Student.java:136-140 | null becomes ""; nothing else changes |
| StudentRecords.CompareIgnoresCase | Int-PracExc3/src/objects/Student.java:78-80 | compare(null) is false; compare is equality of the ID ignoring case, and depends only on the ID |
| StudentBuilder.StripFinalTerminator | Int-PracExc3/src/objects/StudentFactory.java:129-136 | what `$` lets through at the end is a prefix of the name |
| StudentBuilder.ValidateNameIffSplit | Int-PracExc3/src/objects/StudentFactory.java:129-136 | validateName holds iff the name is two or more characters of [A-Za-z ,.'-] followed by nothing or one final line terminator |
| StudentBuilder.ValidateNameExamples | Int-PracExc3/src/objects/StudentFactory.java:123-136 | "Jo" and "Jo" followed by a newline pass; "J" and null fail |
| StudentBuilder.NameCharacterExamples | Int-PracExc3/src/objects/StudentFactory.java:123-136 | "O'Neil-Smith, Jr." passes; "J0e" fails on its digit |
| StudentBuilder.StudentFactory.constructor | Int-PracExc3/src/objects/StudentFactory.java:32-37 | holds the four given values |
| StudentBuilder.StudentFactory.Empty | Int-PracExc3/src/objects/StudentFactory.java:42-45 | every value null |
| StudentBuilder.StudentFactory.IsSet | Int-PracExc3/src/objects/StudentFactory.java:64-80 | true iff the name is id, first, last or course in any case and that value is non-null and non-empty |
| StudentBuilder.StudentFactory.BuildStudent | Int-PracExc3/src/objects/StudentFactory.java:87-105 | null unless no value is null, the ID has 3+ characters, both names are valid and the course has 5+; otherwise a new student with exactly the four values |
| StudentOrder.Comparator | Int-PracExc3/src/utils/SortUtil.java:18-53 | the comparator of each key is the compareTo of last names or of courses |
| StudentOrder.ComparatorIsTotalPreorder | Int-PracExc3/src/utils/SortUtil.java:18-53 | 0 iff the keys are equal, opposite sign when swapped, total and transitive |
| StudentOrder.Insert | Int-PracExc3/src/main/Main.java:98-125 | inserting adds exactly one element |
| StudentOrder.SortBy | Int-PracExc3/src/main/Main.java:98-125 | sorting keeps the same students |
| StudentOrder.InsertSorted | Int-PracExc3/src/main/Main.java:98-125 | inserting into a sorted list keeps it sorted |
| StudentOrder.SortByIsSortedPermutation | Int-PracExc3/src/main/Main.java:98-125 | sorting yields the same students in non-decreasing key order |
| StudentOrder.ReverseOfSorted | Int-PracExc3/src/main/Main.java:98-125 | reversing a sorted list gives non-increasing order, same students |
| StudentMenu.MenuOptionRead | Int-PracExc3/src/main/Main.java:75-88 | "d -" is option d inverted and "d" is option d |
| StudentMenu.SpacedMarkRejected | Int-PracExc3/src/main/Main.java:74-88 | as written, "d", spaces, " -" is not a number |
| StudentMenu.SpacedMarkAccepted | Int-PracExc3/src/main/Main.java:74-88 | with trimming, "d", spaces, " -" is option d inverted |
| StudentMenu.TrimmedReadingAgrees | Int-PracExc3/src/main/Main.java:75-88 | the trimmed reading agrees with the code whenever the stripped text has no surrounding blanks |
| StudentMenu.Filter | Int-PracExc3/src/main/Main.java:177-183 | the filter keeps a sub-list of the students |
| StudentMenu.FilterMembers | Int-PracExc3/src/main/Main.java:177-183 | exactly the students whose ID or last name contains the term, both lower-cased, are kept |
| StudentMenu.FilterAppend | Int-PracExc3/src/main/Main.java:177-183 | the filter keeps list order |
| StudentMenu.EmptyTermKeepsAll | Int-PracExc3/src/main/Main.java:177-183 | an empty term keeps every student |
| StudentMenu.InvertedSearchSameStudents | Int-PracExc3/src/main/Main.java:185-186 | the inverted search lists the same students in the opposite order |
| StudentMenu.Arranged | Int-PracExc3/src/main/Main.java:98-125 | options 2 and 3 keep the same students, in ascending key order or descending when inverted |
| StudentMenu.Menu.constructor | Int-PracExc3/src/main/Main.java:48-55 | the loaded students, or an empty list when none were read |
| StudentMenu.Menu.Contains | Int-PracExc3/src/main/Main.java:261-267 | true iff some student's compare(id) holds; false for null |
| StudentMenu.Menu.Search | Int-PracExc3/src/main/Main.java:152-191 | the matching students in list order, reversed when inverted; the list is unchanged |
| StudentMenu.Menu.AddStudent | Int-PracExc3/src/main/Main.java:91-97 | exactly one student is appended |
| StudentMenu.Menu.SortStudents | Int-PracExc3/src/main/Main.java:98-125 | the list is sorted by the key and reversed when inverted |
| BookShop.FirstFree | Beg-PracExc4/src/BookStore.java:79-83 | every slot before it holds a book and it is free (or the end) |
| BookShop.StockedPrefix | Beg-PracExc4/src/BookStore.java:78-83 | in a stocked catalogue the books are exactly the slots before the first free one |
| BookShop.BubbleSort | Beg-PracExc4/src/BookStore.java:168-177 | the first `length` slots become a permutation in non-decreasing price; the rest is untouched |
| BookShop.BubblePass | Beg-PracExc4/src/BookStore.java:170-176 | one inner pass moves the dearest book up to c into c, keeping the same books |
| BookShop.Remove | Beg-PracExc4/src/BookStore.java:260-263 | the text before the first occurrence of the needle, which must occur |
| BookShop.DropLeadingSpaces | Beg-PracExc4/src/BookStore.java:216-217 | a suffix with only spaces cut off and no leading space |
| BookShop.DropTrailingSpaces | Beg-PracExc4/src/BookStore.java:218-219 | a prefix with only spaces cut off and no trailing space |
| BookShop.CompareAndSwap | Beg-PracExc4/src/BookStore.java:171-175 | the neighbours j and j + 1 end up in non-decreasing price, holding the same two books; nothing else moves |
| BookShop.StripLeading | Beg-PracExc4/src/BookStore.java:216-217 | the first loop leaves a suffix that is empty or starts with a non-space, having cut off only spaces |
| BookShop.StripTrailing | Beg-PracExc4/src/BookStore.java:218-219 | the second loop leaves a prefix that is empty or ends with a non-space, having cut off only spaces |
| BookShop.StripSpaces | Beg-PracExc4/src/BookStore.java:216-219 | the two stripping loops drop leading, then trailing spaces |
| BookShop.SearchQuery | Beg-PracExc4/src/BookStore.java:199-224 | a non-empty stripped term; case is ignored iff " --i" occurs |
| BookShop.ReadSearchTerm | Beg-PracExc4/src/BookStore.java:199-224 | the term search reads, with its loops |
| BookShop.PlainQueryExample | Beg-PracExc4/src/BookStore.java:207-224 | "Dune" is searched for as entered, with case |
| BookShop.FlaggedQueryExample | Beg-PracExc4/src/BookStore.java:207-224 | "Dune --i" is "Dune", ignoring case: the flag and what follows are dropped |
| BookShop.EmptyQueryExamples | Beg-PracExc4/src/BookStore.java:207-224 | "--i", blanks and " --i" give no term |
| BookShop.IgnoringCaseFindsMore | Beg-PracExc4/src/BookStore.java:226-237 | every exact match is also a case-ignoring match |
| BookShop.BookStore.constructor | Beg-PracExc4/src/BookStore.java:19 | ten empty slots |
| BookShop.BookStore.Exists | Beg-PracExc4/src/BookStore.java:312-318 | true iff some slot holds a book with this ID |
| BookShop.BookStore.IsLibraryEmpty | Beg-PracExc4/src/BookStore.java:325-330 | true iff every slot is empty |
| BookShop.BookStore.FindFreeSlot | Beg-PracExc4/src/BookStore.java:79-83 | the first free slot, or -1 when there is none |
| BookShop.BookStore.AddBook | Beg-PracExc4/src/BookStore.java:77-152 | full when no slot is free; refused on a bad or duplicate ID or bad fields; otherwise stored in the first free slot and nothing else changes |
| BookShop.BookStore.SortDisplay | Beg-PracExc4/src/BookStore.java:157-180 | none iff empty; otherwise a fresh clone whose books are a price-sorted permutation, the catalogue untouched |
| BookShop.BookStore.SearchSlots | Beg-PracExc4/src/BookStore.java:226-249 | slot i holds the catalogue's book i exactly when its title matches; found iff some slot does |
| BookShop.StoredBooksAreAccepted | Beg-PracExc4/src/BookStore.java:89-149 | every stored book sits before the first free slot and has an ID in 1000..9999 |
| HotelBooking.KindsDoNotCollide | Beg-PracExc5/src/hotel/HotelBookings.java:207-218 | booking one kind does not change which rooms of the other kind are booked |
| HotelBooking.HotelBookings.constructor | Beg-PracExc5/src/hotel/HotelBookings.java:18 | the list starts empty |
| HotelBooking.HotelBookings.Contains | Beg-PracExc5/src/hotel/HotelBookings.java:204-219 | false on an empty list; otherwise true iff a room of the same kind has that number |
| HotelBooking.HotelBookings.RoomDetails | Beg-PracExc5/src/hotel/HotelBookings.java:83-117 | out-of-range or non-numeric asks again; a booked room is refused with no change; otherwise exactly that room is appended at index old size |
| HotelBooking.OutOfRangeNeverBooked | Beg-PracExc5/src/hotel/HotelBookings.java:89-104 | numbers outside 1..600 are never booked |
| HotelBooking.RegisterIsBounded | Beg-PracExc5/src/hotel/HotelBookings.java:28 | a register of unique rooms has at most 1200 entries |
| PatientAddress.RepairedSuburb | Beg-PracticalExercise2/src/Address.java:28-32 | a null suburb reads as "Melbourne" |
| PatientAddress.RepairedPostcode | Beg-PracticalExercise2/src/Address.java:35-39 | never below 1000; a smaller postcode reads as 3000 |
| PatientAddress.RepairsAreIdempotent | Beg-PracticalExercise2/src/Address.java:28-39 | a repaired value is left alone by a second repair |
| PatientAddress.Address.Default | Beg-PracticalExercise2/src/Address.java:17-19 | ("Melbourne", 3000) |
| PatientAddress.Address.constructor | Beg-PracticalExercise2/src/Address.java:21-25 | both values stored without validation |
| PatientAddress.Address.GetSuburb | Beg-PracticalExercise2/src/Address.java:28-32 | never null; the repaired suburb is stored |
| PatientAddress.Address.GetPostcode | Beg-PracticalExercise2/src/Address.java:35-39 | never below 1000; the repaired postcode is stored |
| PatientAddress.Address.SetSuburb | Beg-PracticalExercise2/src/Address.java:42-44 | null is ignored |
| PatientAddress.Address.SetPostcode | Beg-PracticalExercise2/src/Address.java:47-49 | a postcode below 1000 is ignored |
| PatientRecord.RepairedMedicare | Beg-PracticalExercise2/src/Patient.java:40-44 | never below 1; a smaller number reads as 999999 |
| PatientRecord.RepairedAge | Beg-PracticalExercise2/src/Patient.java:61-65 | never below 1; a smaller age reads as 1 |
| PatientRecord.RepairedName | Beg-PracticalExercise2/src/Patient.java:54-58 | a null last name reads as "Doe" |
| PatientRecord.KeepUnlessValid | Beg-PracticalExercise2/src/Patient.java:73-80 | a value below 1 is ignored and the field keeps its value |
| PatientRecord.RepairedAgeIsChild | Beg-PracticalExercise2/src/Patient.java:61-70 | a repaired age never makes a patient an adult |
| PatientRecord.PatientRepairsAreIdempotent | Beg-PracticalExercise2/src/Patient.java:40-65 | every getter's repair is idempotent |
| PatientRecord.Patient.Default | Beg-PracticalExercise2/src/Patient.java:20-22 | the defaults and the shared default address |
| PatientRecord.Patient.constructor | Beg-PracticalExercise2/src/Patient.java:32-37 | the four values stored without validation |
| PatientRecord.Patient.GetMedicareNum | Beg-PracticalExercise2/src/Patient.java:40-44 | the repaired number, stored back |
| PatientRecord.Patient.GetAddress | Beg-PracticalExercise2/src/Patient.java:47-51 | never null: a null address becomes the shared default |
| PatientRecord.Patient.GetLastName | Beg-PracticalExercise2/src/Patient.java:54-58 | never null: the repaired name, stored back |
| PatientRecord.Patient.GetAge | Beg-PracticalExercise2/src/Patient.java:61-65 | the repaired age, stored back |
| PatientRecord.Patient.IsAdult | Beg-PracticalExercise2/src/Patient.java:68-70 | true iff the repaired age is at least 18 |
| PatientRecord.Patient.SetMedicareNum | Beg-PracticalExercise2/src/Patient.java:73-75 | a value below 1 is ignored |
| PatientRecord.Patient.SetAge | Beg-PracticalExercise2/src/Patient.java:78-80 | a value below 1 is ignored |
| PatientRecord.Patient.SetLastName | Beg-PracticalExercise2/src/Patient.java:83-85 | null is ignored |
| PatientRecord.Patient.SetAddress | Beg-PracticalExercise2/src/Patient.java:88-90 | null is ignored |
| PatientRecord.Patient.SetAddressOf | Beg-PracticalExercise2/src/Patient.java:93-95 | a new Address holds both values, unvalidated |
| PatientRecord.Patient.ToString | Beg-PracticalExercise2/src/Patient.java:103-108 | the text of the repaired values; every field, and the suburb and postcode of the address used, now holds its repaired value; the shared default is untouched when the patient has an address of its own |

## Left out

- The Swing screens, the `JOptionPane` dialog loops and the event-thread runnables are left out as user-interface plumbing. Where a dialog loop feeds the core, its result is a parameter:
  - the book `addBook` stores, with refused input as the `Refused` outcome;
  - the room kind and the parsed number in `roomDetails`, with a retry as `AskAgain`;
  - the term the student search uses;
  - the student that option 1 adds.
- `StudentFactory.edit*`, `forceBuildStudent` and `getInput` are dialog loops and are not part of this model. `Menu.AddStudent` takes an already built student. Option 1's case where `buildStudent` returns null is left out, because the dialogs that run first are there to prevent it.
- `StudentMenu.ReadMenuInputTrimmed` is not used by `Menu`. The menu loop itself is user-interface code, and only its reading of the input is modelled.
- File I/O is reduced to values, and Java serialisation is not modelled:
  - `commit` becomes the `commitOk` parameter;
  - `load` becomes the `StoredFile` value that deserialisation produced;
  - Int-PracExc3/src/utils/IOUtil.java is not part of this model.
- JDBC (`ConnectionWrapper`, `DBConnection.connect/close/isOpen/getStatement/getConnection`) and the SQL text are left out. Query answers and update counts are parameters, and those answers are not required to be consistent with each other.
- The built-in connection constants of `DBConnection` are a `Defaults` parameter. The getters of `DBConnection` and `Student` are plain reads of the datatype fields and the `const` ID.
- Prices are doubles in the Java code and are ints here. The sort only compares them with `>`. The hotel rates and the payroll and fee programs use floating point and are not part of this model.
- Java strings are sequences of UTF-16 code units; here a `string` is a sequence of Unicode scalar values, so a character outside the Basic Multilingual Plane counts as 2 in Java and as 1 here. This affects the length limits of `AppointmentRecord.CutName` (19/20), `AppointmentBook.AppointmentFactory.ValidateName` (20), the `EmployeeRecords` checks (1..20, 1..30, 6, 1..11) and the `StudentBuilder` minimum lengths. It also affects `String.compareTo`, which orders by code unit, in `AppointmentOrder.DisplayCompare` and `StudentOrder.Comparator`. `Integer.parseInt` in the model accepts only the ASCII digits 0-9, while Java also accepts other Unicode decimal digits.
- Case folding is ASCII only; Java's locale-dependent `toLowerCase`/`toUpperCase` are not modelled.
- Appointments in `AppointmentFactory` and books and rooms are values, so aliasing of the Java objects is not captured. Changing an `Appointment` that the list shares with a caller is not modelled.
- `BookStore.addBook`'s final "unknown error" branch cannot be reached and is not modelled. `display`, `listBooked`, `displayRates` and `HotelBookings.askIsSuite` are output or dialog code.
- A null search term in `AppointmentFactory.search` and `isSet(null)` both raise `NullPointerException` in Java. The model's terms are never null.
- The constructors that read the clock (`AppointmentFactory()` with the current month) take the month and year as arguments instead.
- Appointments a load appends before it meets a foreign element stay in the list, as in the code; deleting the file is reported as a flag rather than carried out.

## Findings

| source | as written | input that shows it | evidently intended | confidence | as-written member | corrected member |
|---|---|---|---|---|---|---|
| Int-PracExc3/src/main/Main.java:74-88 | the menu input has every " -" removed and the remainder is parsed as is | "3      -" leaves "3     ", which parseInt rejects, so the choice is not read | the comment at line 74 gives "3      -" as a valid inverted choice; the remainder should be trimmed before parsing | not executed | StudentMenu.SpacedMarkRejected | StudentMenu.SpacedMarkAccepted |
