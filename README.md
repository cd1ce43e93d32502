# LockMate locker rental — a verified Dafny model of the core

LockMate is a browser demo for renting lockers. Users register and log in. They
can reset a password with a one-time password (OTP) and take an available
locker. They open or close their locker after confirming an OTP. Everything is
kept in five tables: users, lockers, OTPs, transactions and settings.

This project models the parts of LockMate that hold its logic:

- **The browser-local store** (`src/utils/localStorageDB.js`) is modelled as the
  class `LocalStore.Store`.
  - Its fields are the five tables and the set of storage keys that exist. A key
    that does not exist reads as an empty table, as `|| '[]'` does in the source.
  - Each `DatabaseOperations` member that writes or decides something is a method
    with the same branches and the same messages. The `getAll*` members are plain
    reads of a field.
  - Its record helpers (`find`, `filter`, `push`) live in `StoreRecords`. The
    lemmas about registration, locker assignment and the OTP life cycle live
    there too: issue a code, let it expire, use it once.
- **The read-only workbook database** (`src/utils/database.js`) is modelled as
  the class `SheetDatabase.Database`.
  - It has a cache, the loaded master data and an initialised flag.
  - The row filtering behind `find` and `findOne` is pure. So are the query
    helpers of `DatabaseOperations`.
  - The helpers that are stubs are modelled by the value each one returns.
- **The workbook generator** (`create-database.js`) is modelled by
  `InitialData.CreateInitialData`, with the loop that pushes the twenty locker
  rows.
- **The sign-in form** (`src/components/AuthForm.jsx`) is modelled in
  `AuthForm`: its two validators and the OTP step of a password reset.
- **The OTP gate of the locker dashboard** (`src/components/LockerDashboard.jsx`)
  is modelled by `LockerDashboard.VerifyThenAct`.

Supporting modules:

- `Text` holds the JavaScript string primitives the code relies on: `trim`,
  `toString`, `padStart` and the email regular expression.
- `LockerPool` holds the locker numbering: `L001`…`L020`, five lockers per
  floor, and lockers 1–10 are small.
- `Schema` holds `DATABASE_CONFIG`.
- `Wrappers` holds `Option` and `Result`.

Clocks, generated ids and `Math.random` are parameters.

- `now` is a timestamp in milliseconds. Each operation takes one `now`, even
  where the source reads `new Date()` several times (see "## Left out").
- `id` and `txId` stand for `generateId()`.
- `value` stands for `Math.floor(10000000 + Math.random() * 90000000)`, so it
  lies in 10000000..99999999.
- A timestamp field that may be blank (`''`) is a `Stamp`: `Unset` or `At(ms)`.

Behaviour of the code a reader may not expect:

- `verifyOTP` looks only at the first record with the phone and code. If that
  record is used or expired, the code is refused even when a later record
  would match. Because issuing keeps at most one record per phone, the two
  readings agree on every store the operations can produce.
- `generateOTP` hard-codes a 30-second window. It does not read the
  `OTP_EXPIRY_SECONDS` setting. `StoreRecords.DefaultSettingsAgree` shows
  that the two agree on the default settings.
- The store does not enforce "one locker per user". `assignLocker` occupies
  the locker even when no user has the email; only the user link is then
  skipped.
- `AssignKeepsOccupancy` shows that an empty email would break
  "Occupied ⇔ owner email non-empty". The interface always passes the
  logged-in user's email.

## Model

| member | source | states |
|---|---|---|
| Text.Trim | src/components/AuthForm.jsx:41 | `trim()` is empty exactly when every character is JavaScript whitespace; otherwise both ends of the result are non-space |
| Text.DecimalString | src/utils/localStorageDB.js:142 | `toString()` of a natural is all digits, non-empty, and has no leading zero unless it is "0" |
| Text.DecimalRoundTrip | src/utils/localStorageDB.js:142 | parsing `n.toString()` gives back `n` |
| Text.DecimalLength | src/utils/localStorageDB.js:142 | if 10^(k-1) <= n < 10^k then `n.toString()` has k characters |
| Text.DecimalMagnitude | src/utils/localStorageDB.js:142 | a positive n lies between 10^(L-1) and 10^L, where L is the length of `n.toString()` |
| Text.DecimalLengthExact | src/utils/localStorageDB.js:142 | for n >= 1, `n.toString()` has k characters exactly when 10^(k-1) <= n < 10^k |
| Text.EightDigits | src/utils/localStorageDB.js:142 | every value in 10000000..99999999 prints as exactly eight digits |
| Text.PadStart | src/utils/localStorageDB.js:23 | `padStart(width, fill)` keeps the string as a suffix, pads with `fill` only, and reaches `max(width, length)` |
| Text.PaddedDecimalRoundTrip | src/utils/localStorageDB.js:23 | zero padding does not change the number a digit string denotes |
| Text.EmailShapedInContext | src/components/AuthForm.jsx:49 | the email pattern is unanchored: any text around an accepted address is still accepted |
| Text.EmailShapedExamples | src/components/AuthForm.jsx:49 | `a@b.c` and `name: x@y.org` pass; `a@b`, `a@.c` and `a @b.c` fail |
| LockerPool.Floor | src/utils/localStorageDB.js:29 | `Math.ceil(i / 5)`: locker i is on floor f exactly when 5(f-1) < i <= 5f; lockers 1..20 are on floors 1..4 |
| LockerPool.LockerIdRoundTrip | src/utils/localStorageDB.js:23 | a locker id is `L` followed by digits that parse back to the locker number |
| LockerPool.LockerIdsDistinct | src/utils/localStorageDB.js:21-31 | different locker numbers get different ids |
| LockerPool.LockerIdWidth | src/utils/localStorageDB.js:23 | lockers 1..999 get four-character ids |
| LockerPool.LockerIdExamples | create-database.js:38-45 | locker 1 is `L001` on `Floor 1`, locker 6 is on `Floor 2`, locker 20 is `L020` on `Floor 4` |
| Schema.Config | src/utils/database.js:6-27 | `DATABASE_CONFIG[name]` exists exactly for the five declared names users, lockers, otps, transactions and settings |
| StoreRecords.EveryTable | src/utils/localStorageDB.js:2-8 | the five storage keys are all the tables there are |
| StoreRecords.FindUser | src/utils/localStorageDB.js:108 | `users.find`: the first user matching by email, by credentials or by phone, and None exactly when no user matches |
| StoreRecords.AppendNewEmailKeepsDistinct | src/utils/localStorageDB.js:107-113 | pushing a user whose email is not taken keeps emails unique |
| StoreRecords.FindUserByEmailIgnoresOtherFields | src/utils/localStorageDB.js:125-130 | updating a user without changing its email does not change which user an email lookup finds |
| StoreRecords.SameEmailsKeepDistinct | src/utils/localStorageDB.js:226-229 | an update that leaves every email in place keeps emails unique |
| StoreRecords.LinkLocker | src/utils/localStorageDB.js:226-229 | setting `LockerID` changes at most the user with the given email, and only that field |
| StoreRecords.LinkLockerReachesOwner | src/utils/localStorageDB.js:226-229 | with unique emails, the owner of the email does get the locker id |
| StoreRecords.FindLocker | src/utils/localStorageDB.js:219 | `lockers.find` by id: the first locker with the id, and None exactly when no locker has it |
| StoreRecords.AvailableAt | src/utils/localStorageDB.js:219-220 | `locker && locker.Status === 'Available'`: the found locker when it is available, and None exactly when it is missing or not available |
| StoreRecords.AssignKeepsOccupancy | src/utils/localStorageDB.js:220-223 | occupying a locker keeps "Occupied exactly when an owner email is set" exactly when the email is non-empty |
| StoreRecords.StampKeepsOccupancy | src/utils/localStorageDB.js:251-253 | stamping open or close times leaves the occupancy invariant as it was |
| StoreRecords.DefaultPoolAvailable | src/utils/localStorageDB.js:21-31 | the default pool satisfies the occupancy invariant: every locker is available and has no owner |
| StoreRecords.NumberedIdsDistinct | src/utils/localStorageDB.js:21-23 | lockers numbered 1.. in order have pairwise distinct ids |
| StoreRecords.DefaultPoolIdsDistinct | src/utils/localStorageDB.js:21-31 | the twenty default lockers have pairwise distinct ids |
| StoreRecords.FindOtp | src/utils/localStorageDB.js:176 | `otps.find` by phone and code: the first match, and None exactly when there is none |
| StoreRecords.WithoutPhone | src/utils/localStorageDB.js:157 | the filter keeps no record for the phone, adds nothing and never grows |
| StoreRecords.NewOtp | src/utils/localStorageDB.js:142-153 | a new OTP has an eight-digit code denoting the random value, expires 30000 ms after issue, and is unused |
| StoreRecords.ForPhoneAppend | src/utils/localStorageDB.js:160 | the records of one phone in a concatenation are those of each part, in order |
| StoreRecords.ForPhoneWithout | src/utils/localStorageDB.js:157 | filtering out one phone removes all of its records and leaves every other phone's records alone |
| StoreRecords.IssueReplacesOnlyThatPhone | src/utils/localStorageDB.js:155-161 | after issuing, the phone has exactly the new record; other phones keep theirs |
| StoreRecords.WithoutPhoneKeepsOnePerPhone | src/utils/localStorageDB.js:157 | filtering keeps "at most one OTP per phone" |
| StoreRecords.IssueKeepsOnePerPhone | src/utils/localStorageDB.js:155-161 | issuing keeps "at most one OTP per phone" |
| StoreRecords.RedeemKeepsOnePerPhone | src/utils/localStorageDB.js:182-185 | marking a record used keeps "at most one OTP per phone" |
| StoreRecords.OtpAfterIssue | src/utils/localStorageDB.js:155-186 | after a new issue for a phone, a code is accepted exactly when it is the new code, unused and unexpired; every earlier code for the phone is dead |
| StoreRecords.IssuedCodeExpires | src/utils/localStorageDB.js:143-182 | 30000 ms or more after issue, no code for the phone is accepted |
| StoreRecords.FindOtpIgnoresUsed | src/utils/localStorageDB.js:176-184 | setting the used flag does not change which record the lookup finds |
| StoreRecords.RedeemIsSingleUse | src/utils/localStorageDB.js:176-186 | once a code is accepted and marked used, it is never accepted again, at any time |
| StoreRecords.DefaultSettings | src/utils/localStorageDB.js:39-44 | there are four default settings |
| StoreRecords.DefaultSettingsAgree | src/utils/localStorageDB.js:39-44 | the default settings have distinct keys and carry the initialisation time; the OTP expiry setting (30 s) matches the 30000 ms window and LOCKER_COUNT matches the pool size |
| LocalStore.Store.InitializeDefaultData | src/utils/localStorageDB.js:15-57 | every key exists afterwards; lockers and settings get their defaults only when their key was missing; no existing table is overwritten |
| LocalStore.Store.BuildDefaultLockers | src/utils/localStorageDB.js:20-32 | the loop builds exactly the twenty default lockers in order |
| LocalStore.Store.CreateMissingKeys | src/utils/localStorageDB.js:50-54 | missing keys are created empty and no table changes |
| LocalStore.Store.Register | src/utils/localStorageDB.js:91-120 | fails (null) exactly when the email is taken, and then changes nothing; otherwise pushes and returns the new user record; emails stay unique |
| LocalStore.Store.Login | src/utils/localStorageDB.js:122-138 | succeeds exactly when some user has the email and password; stamps `LastLogin` on the first such user only and returns it |
| LocalStore.Store.GenerateOtp | src/utils/localStorageDB.js:140-171 | returns an eight-digit code; the phone ends with exactly the new record; other phones are untouched |
| LocalStore.Store.VerifyOtp | src/utils/localStorageDB.js:173-194 | accepts exactly when the first record for the phone and code is unused and unexpired, then marks it used; a refusal changes nothing; afterwards that code is refused at the same instant |
| LocalStore.Store.ResetPassword | src/utils/localStorageDB.js:196-211 | succeeds exactly when some user has the phone; sets the password of the first such user only |
| LocalStore.Store.LogTransaction | src/utils/localStorageDB.js:324-346 | appends and returns exactly one transaction with the given fields |
| LocalStore.Store.AssignLocker | src/utils/localStorageDB.js:213-244 | succeeds exactly when the locker exists and is available; then occupies it for the email, links the owning user, logs one ASSIGN/Success transaction and keeps the occupancy invariant; a refusal changes nothing |
| LocalStore.Store.Occupy | src/utils/localStorageDB.js:219-232 | the locker and user updates of a successful assignment, and no other change |
| LocalStore.Store.OpenLocker | src/utils/localStorageDB.js:246-265 | succeeds exactly when the locker exists; stamps only its `LastOpened` and logs one OPEN transaction for its owner |
| LocalStore.Store.CloseLocker | src/utils/localStorageDB.js:267-286 | succeeds exactly when the locker exists; stamps only its `LastClosed` and logs one CLOSE transaction for its owner |
| LocalStore.Store.ClearAllData | src/utils/localStorageDB.js:348-359 | always succeeds and leaves the fresh store: no users, OTPs or transactions, twenty available lockers with distinct ids, the four settings; counts 0/20/0/0/4 |
| LocalStore.Store.Stats | src/utils/localStorageDB.js:368-375 | a table whose key does not exist counts 0 |
| InitialData.CreateInitialData | create-database.js:28-71 | every sheet starts with its column list; lockers 1..20 follow in order; then come the four settings rows |
| InitialData.HeadersMatchConfig | create-database.js:32-56 | each sheet's header is the column list `DATABASE_CONFIG` gives for that table |
| InitialData.LockerRowsWellFormed | create-database.js:35-47 | every locker row is as wide as the locker columns, and the locker ids are pairwise distinct |
| InitialData.SettingsRows | create-database.js:56-68 | four settings rows of four cells with the keys and values in push order |
| InitialData.LockerRowMatchesDefaultLocker | create-database.js:37-46 | the generator's locker row and the browser store's default locker agree on id, status, owner, location and size |
| InitialData.SettingRowMatchesDefaultSetting | create-database.js:56-68 | the generator's k-th settings row and the browser store's k-th default setting (localStorageDB.js 39-44) agree on key, value and description |
| SheetDatabase.IndexOf | src/utils/database.js:101 | `columns.indexOf(key)`: the first position of the key, or -1 exactly when it is absent |
| SheetDatabase.OneKeyCondition | src/utils/database.js:99-104 | a one-key condition matches exactly when that column exists and holds the value |
| SheetDatabase.TwoKeyCondition | src/utils/database.js:99-104 | a two-key condition matches exactly when both keys match |
| SheetDatabase.DataRows | src/utils/database.js:97 | `slice(1)` drops exactly the header row |
| SheetDatabase.Filter | src/utils/database.js:99-104 | the filter never grows and keeps only matching rows |
| SheetDatabase.FilterKeepsExactlyMatching | src/utils/database.js:99-104 | a row is in the result exactly when it is a data row that matches |
| SheetDatabase.FilterAllMatching | src/utils/database.js:99-104 | when every row matches, the filter returns the rows unchanged |
| SheetDatabase.EmptyConditionSameAsNone | src/utils/database.js:97-104 | an empty condition object selects the same rows as no condition |
| SheetDatabase.UnknownColumnExcludesAll | src/utils/database.js:101-102 | a condition naming a column the table does not have selects nothing |
| SheetDatabase.FirstIsEarliestMatch | src/utils/database.js:108-111 | `findOne` returns the earliest matching row |
| SheetDatabase.NoMatchNoFirst | src/utils/database.js:108-111 | `findOne` is null exactly when no row matches |
| SheetDatabase.KeyConditionIsFirstCell | src/utils/database.js:257-259 | a `{Key: key}` condition on settings matches exactly the rows whose first cell is the key |
| SheetDatabase.SettingValueAt | src/utils/database.js:257-259 | `settings.get(key)` is cell 1 of the first data row whose cell 0 is the key (None when that row has no cell 1) |
| SheetDatabase.SettingValueMissing | src/utils/database.js:257-259 | `settings.get(key)` is null when no data row has the key in cell 0 |
| SheetDatabase.InitialSettingsValues | src/utils/database.js:257-259 | on the generated workbook, `settings.get` returns "30" for OTP_EXPIRY_SECONDS and "20" for LOCKER_COUNT, and null for an unknown key |
| SheetDatabase.InitialLockersAllAvailable | src/utils/database.js:181-183 | on the generated workbook, `getAvailable` returns all twenty locker rows |
| SheetDatabase.QueryTable | src/utils/database.js:155-268 | every query helper reads a configured table |
| SheetDatabase.CredentialsCondition | src/utils/database.js:159-162 | the `{Email, Password}` condition matches exactly the rows holding that email and password |
| SheetDatabase.AuthenticateIffCredentials | src/utils/database.js:159-162 | `authenticate` finds a user exactly when some data row has that email and password |
| SheetDatabase.Stub | src/utils/database.js:150-265 | the create and log stubs return null, cleanup returns nothing, and every other write stub returns false |
| SheetDatabase.Database.constructor | src/utils/database.js:36-40 | empty cache, no master data, not initialised |
| SheetDatabase.Database.Served | src/utils/database.js:79-91 | what `loadTable` would return: nothing for an unknown table, else the cached rows, else the master rows |
| SheetDatabase.Database.InitializeDatabase | src/utils/database.js:43-53 | loads the master data on the first call only; later calls change nothing |
| SheetDatabase.Database.LoadTable | src/utils/database.js:79-92 | throws "not found" exactly for a name `DATABASE_CONFIG` does not declare; otherwise returns the cached or master rows and caches them; no other cache entry changes |
| SheetDatabase.Database.Find | src/utils/database.js:95-105 | fails exactly for an undeclared table name; otherwise returns the data rows that match the condition; the table is then cached with the rows served, and the cache is otherwise unchanged |
| SheetDatabase.Database.FindOne | src/utils/database.js:108-111 | fails exactly for an undeclared table name; otherwise returns the first matching data row, or null; the table is then cached with the rows served, and the cache is otherwise unchanged |
| SheetDatabase.Database.GetStats | src/utils/database.js:114-121 | the record count is the row count minus the header; the columns come from the table's configuration; the table is then cached with the rows served, and an undeclared name leaves the cache unchanged |
| SheetDatabase.Database.ClearCache | src/utils/database.js:124-126 | empties the cache, so every table is served from the master data again |
| SheetDatabase.Database.Run | src/utils/database.js:155-268 | each query helper answers from the rows `loadTable` serves for its table, and exactly that table is added to the cache |
| AuthForm.TrimsToEmpty | src/components/AuthForm.jsx:41 | `!value.trim()` holds exactly when the value is all whitespace |
| AuthForm.ValidateForm | src/components/AuthForm.jsx:37-60 | valid exactly when the error map is empty, exactly when the form is acceptable; each field is reported exactly when its rule fails, with the source's message ("required" wins); login mode never reports name, phone or confirmation |
| AuthForm.ValidatePasswordResetForm | src/components/AuthForm.jsx:62-76 | valid exactly when the phone is filled, the password is acceptable and the confirmation matches; name and email are never reported |
| AuthForm.LoginIgnoresSignUpFields | src/components/AuthForm.jsx:40-46 | in login mode, name, phone and confirmation do not affect acceptance |
| AuthForm.SignUpStricterThanLogin | src/components/AuthForm.jsx:40-56 | every form sign-up accepts, login accepts too |
| AuthForm.BlankPasswordRefused | src/components/AuthForm.jsx:53-55 | six spaces are long enough but refused as a missing password |
| AuthForm.HandleOtpVerification | src/components/AuthForm.jsx:153-179 | a refused code changes nothing; an accepted one is used up; the password changes only after acceptance, and only for the first user with the phone; the reset fails exactly when no user has the phone; the whole new store is given in each outcome, so nothing else changes |
| LockerDashboard.VerifyThenAct | src/components/LockerDashboard.jsx:104-117 | the locker is touched only after the OTP is accepted; a refused code changes nothing; an accepted one is used up; an existing locker gets only its `LastOpened` or `LastClosed` stamped, keeps its status and owner, and gets exactly one OPEN or CLOSE transaction; the whole new store is given, so no other locker, table or key changes; the occupancy invariant is kept |
| LockerDashboard.Stamped | src/utils/localStorageDB.js:252-273 | opening stamps only `LastOpened`, closing only `LastClosed`; id, status and owner stay |

## Left out

- Storage is not modelled byte for byte. `localStorage`, `JSON.stringify`/`JSON.parse` and the key strings (`locker_users`, …) become typed fields plus the set of keys that exist. A stored value that fails to parse, and the `catch` branches that turn such exceptions into `null`/`false`, are not modelled.
- `async` is left out. Every operation runs to completion in one step, which is how the single-tab page uses them.
- Time is an integer. ISO-8601 timestamps are integer milliseconds, and each operation reads the clock once. Several operations read `new Date()` more than once: `initializeDefaultData` (once per setting), `generateOTP`, `assignLocker`, `openLocker` and `closeLocker` (again inside `logTransaction`), and `createInitialData` (once per settings row). Those readings are taken to agree.
- `generateId` and `Math.random` are parameters. Ids are not proved unique, because the source's ids are random strings.
- `downloadOTPFile` (file download through the DOM) is left out. So are `exportDatabase` in both files, `Database.exportTable`, `createExcelFile` and the XLSX calls. None of them changes a table.
- `Database.loadMasterFile` is left out because it reads the workbook file with XLSX. `SheetDatabase.Database.InitializeDatabase` takes the loaded sheets as its parameter `loaded`.
- `getAllUsers`, `getAllLockers`, `getAllOTPs` and `getAllTransactions` (localStorageDB.js 288-322) are plain reads of a field of `LocalStore.Store`. The `initializeDatabase` wrapper (363-365) is `InitializeDefaultData`.
- In database.js, `getDatabaseStats` is five `GetStats` calls, the `initializeDatabase` export is `InitializeDatabase`, and `cleanupExpiredOTPs` only logs; none has a member of its own.
- Cells read back from a workbook are modelled as strings. `sheet_to_json` can produce numbers or booleans, which `===` would then compare differently.
- JavaScript `null` and `undefined` results are both `None`, except in `SheetDatabase.Stub`, which keeps them apart.
- Lengths count Unicode scalar values. JavaScript `length` counts UTF-16 code units, so a password containing characters outside the Basic Multilingual Plane passes the six-character rule with fewer characters in the model.
- React state, rendering, alerts, `handleSubmit`, `handlePasswordReset`, the other components, `AuthContext` and `csvUtils` are not part of this model. Only the validators, the OTP step of the reset and the dashboard's OTP gate are modelled.
- Schema.Config: names inherited from `Object.prototype` (such as `toString`) are treated as unknown tables. In JavaScript they pass the `if (!config)` guard of `loadTable`, which would then return and cache an inherited function, and `getStats` would report -1 records. No caller passes such a name: every call site uses a literal table name. The same holds for `SheetDatabase.Database.Served`, `LoadTable`, `Find`, `FindOne` and `GetStats`.
- LockerDashboard.VerifyThenAct: the `user.LockerID` is a parameter, and reloading the page data after the action is not modelled.
- LocalStore.Store.Stats: the contract states only that a missing key counts 0. That each count is its table's length is the function's definition, and `ClearAllData` states the counts of a fresh store.
- Text.Trim: the contract does not state that the result is a slice of the input; that fact is stated separately for `TrimStart` and `TrimEnd`. The form only tests whether the trimmed value is empty, and that is stated in full.
- StoreRecords.DefaultSettings: its own contract gives only the number of settings. `InitialData.SettingRowMatchesDefaultSetting` states the key, value and description of each of the four rows. `StoreRecords.DefaultSettingsAgree` states that every row carries the initialisation time, that the keys are distinct, and what rows 0 and 2 mean.
