/**
 * The read-only workbook database: every table is a sheet whose first row is
 * the header, rows are looked up by column name, and the `Database` object
 * caches each table the first time it is loaded. The query helpers of its
 * `DatabaseOperations` object are fixed `find`/`findOne` calls; the mutating
 * helpers are stubs that answer `null`, `false` or nothing.
 */
module SheetDatabase {
  import opened Wrappers
  import opened Schema
  import InitialData
  import LockerPool

  /** A `condition` object: column name to the exact cell value wanted. */
  type Condition = map<string, string>

  /** `columns.indexOf(key)`: the first position of `key`, or -1. */
  function IndexOf(columns: seq<string>, key: string): (r: int)
    ensures -1 <= r < |columns|
    ensures r >= 0 ==> columns[r] == key && forall j | 0 <= j < r :: columns[j] != key
    ensures r == -1 <==> key !in columns
  {
    if |columns| == 0 then -1
    else if columns[0] == key then 0
    else
      var k := IndexOf(columns[1..], key);
      assert key in columns <==> key in columns[1..] by {
        assert columns == [columns[0]] + columns[1..];
      }
      if k == -1 then -1 else k + 1
  }

  /** `record[index] === value`: a cell past the end of the row is `undefined` and equals
      no string. */
  predicate CellIs(record: Row, index: int, value: string) {
    0 <= index < |record| && record[index] == value
  }

  /** The `every` callback of `find`: each key of the condition names a configured column
      and the row holds exactly the wanted value in it. */
  predicate RowMatches(columns: seq<string>, record: Row, condition: Condition) {
    forall key | key in condition :: KeyMatches(columns, record, key, condition[key])
  }

  /** One key of the condition: it names a column and the row holds `value` there. */
  predicate KeyMatches(columns: seq<string>, record: Row, key: string, value: string) {
    IndexOf(columns, key) != -1 && CellIs(record, IndexOf(columns, key), value)
  }

  /** A condition with one key tests that key alone. */
  lemma OneKeyCondition(columns: seq<string>, record: Row, key: string, value: string)
    ensures RowMatches(columns, record, map[key := value]) <==> KeyMatches(columns, record, key, value)
  {
    assert key in map[key := value];
  }

  /** A condition with two different keys tests both. */
  lemma TwoKeyCondition(columns: seq<string>, record: Row, k1: string, v1: string, k2: string, v2: string)
    requires k1 != k2
    ensures RowMatches(columns, record, map[k1 := v1, k2 := v2]) <==>
            KeyMatches(columns, record, k1, v1) && KeyMatches(columns, record, k2, v2)
  {
    var c := map[k1 := v1, k2 := v2];
    assert k1 in c && k2 in c && c[k1] == v1 && c[k2] == v2;
  }

  /** `data.slice(1)`: every row after the header, in order. */
  function DataRows(data: Sheet): (r: Sheet)
    ensures |r| == if |data| == 0 then 0 else |data| - 1
    ensures forall k | 0 <= k < |r| :: r[k] == data[k + 1]
  {
    if |data| == 0 then [] else data[1..]
  }

  /** `rows.filter(record => ...every...)`. */
  function Filter(columns: seq<string>, rows: Sheet, condition: Condition): (r: Sheet)
    ensures |r| <= |rows|
    ensures forall k | 0 <= k < |r| :: RowMatches(columns, r[k], condition)
  {
    if |rows| == 0 then []
    else if RowMatches(columns, rows[0], condition) then [rows[0]] + Filter(columns, rows[1..], condition)
    else Filter(columns, rows[1..], condition)
  }

  /** The rows `find(tableName, condition)` returns when the table holds `data`; `None`
      stands for the missing (falsy) condition. */
  function Select(columns: seq<string>, data: Sheet, condition: Option<Condition>): Sheet {
    match condition
    case None => DataRows(data)
    case Some(c) => Filter(columns, DataRows(data), c)
  }

  /** `results.length > 0 ? results[0] : null`. */
  function First(rows: Sheet): Option<Row> {
    if |rows| > 0 then Some(rows[0]) else None
  }

  /** A row survives the filter iff it is one of the rows and matches the condition. */
  lemma {:induction false} FilterKeepsExactlyMatching(columns: seq<string>, rows: Sheet, condition: Condition, row: Row)
    ensures row in Filter(columns, rows, condition) <==> row in rows && RowMatches(columns, row, condition)
  {
    if |rows| > 0 {
      FilterKeepsExactlyMatching(columns, rows[1..], condition, row);
      assert rows == [rows[0]] + rows[1..];
    }
  }

  /** When every row matches, the filter keeps all of them in their order. */
  lemma {:induction false} FilterAllMatching(columns: seq<string>, rows: Sheet, condition: Condition)
    requires forall k | 0 <= k < |rows| :: RowMatches(columns, rows[k], condition)
    ensures Filter(columns, rows, condition) == rows
  {
    if |rows| > 0 {
      FilterAllMatching(columns, rows[1..], condition);
      assert rows == [rows[0]] + rows[1..];
    }
  }

  /** An empty condition object keeps every data row, exactly like no condition. */
  lemma EmptyConditionSameAsNone(columns: seq<string>, data: Sheet)
    ensures Select(columns, data, Some(map[])) == Select(columns, data, None)
  {
    FilterAllMatching(columns, DataRows(data), map[]);
  }

  /** A key that is not a configured column excludes every row. */
  lemma UnknownColumnExcludesAll(columns: seq<string>, data: Sheet, condition: Condition, key: string)
    requires key in condition && key !in columns
    ensures Select(columns, data, Some(condition)) == []
  {
    var rows := DataRows(data);
    forall k | 0 <= k < |rows| ensures !RowMatches(columns, rows[k], condition) {
      assert !KeyMatches(columns, rows[k], key, condition[key]);
    }
    NoMatchNoFirst(columns, rows, condition);
  }

  /** `findOne` is the first data row that matches, or `null` when no data row does. */
  lemma {:induction false} FirstIsEarliestMatch(columns: seq<string>, rows: Sheet, condition: Condition, k: nat)
    requires k < |rows| && RowMatches(columns, rows[k], condition)
    requires forall j | 0 <= j < k :: !RowMatches(columns, rows[j], condition)
    ensures First(Filter(columns, rows, condition)) == Some(rows[k])
  {
    if k > 0 {
      FirstIsEarliestMatch(columns, rows[1..], condition, k - 1);
    }
  }

  lemma NoMatchNoFirst(columns: seq<string>, rows: Sheet, condition: Condition)
    ensures First(Filter(columns, rows, condition)) == None <==>
            forall k | 0 <= k < |rows| :: !RowMatches(columns, rows[k], condition)
  {
    var r := Filter(columns, rows, condition);
    if |r| > 0 {
      FilterKeepsExactlyMatching(columns, rows, condition, r[0]);
    } else {
      forall k | 0 <= k < |rows| ensures !RowMatches(columns, rows[k], condition) {
        FilterKeepsExactlyMatching(columns, rows, condition, rows[k]);
      }
    }
  }

  // ------------------------------------------------------------- settings

  /** `settings.get(key)`: column 1 of the first settings row whose `Key` is `key`; `null`
      when there is none, and `undefined` (also `None`) when that row has no second cell. */
  function SettingValue(settings: Sheet, key: string): Option<string> {
    match First(Select(SettingColumns, settings, Some(map["Key" := key])))
    case None => None
    case Some(row) => if |row| > 1 then Some(row[1]) else None
  }

  /** `settings.get(key)` reads the first data row whose first cell is `key`: its second
      cell, or `None` when that row has no second cell. */
  lemma SettingValueAt(settings: Sheet, key: string, k: nat)
    requires 1 <= k < |settings| && |settings[k]| > 0 && settings[k][0] == key
    requires forall j | 1 <= j < k :: !(|settings[j]| > 0 && settings[j][0] == key)
    ensures SettingValue(settings, key) == if |settings[k]| > 1 then Some(settings[k][1]) else None
  {
    var rows := DataRows(settings);
    KeyConditionIsFirstCell(rows[k - 1], key);
    forall j | 0 <= j < k - 1 ensures !RowMatches(SettingColumns, rows[j], map["Key" := key]) {
      KeyConditionIsFirstCell(rows[j], key);
    }
    FirstIsEarliestMatch(SettingColumns, rows, map["Key" := key], k - 1);
  }

  /** `settings.get(key)` is `null` when no data row has `key` as its first cell. */
  lemma SettingValueMissing(settings: Sheet, key: string)
    requires forall j | 1 <= j < |settings| :: !(|settings[j]| > 0 && settings[j][0] == key)
    ensures SettingValue(settings, key) == None
  {
    var rows := DataRows(settings);
    forall j | 0 <= j < |rows| ensures !RowMatches(SettingColumns, rows[j], map["Key" := key]) {
      KeyConditionIsFirstCell(rows[j], key);
    }
    NoMatchNoFirst(SettingColumns, rows, map["Key" := key]);
  }

  /** A settings row matches `{ Key: key }` exactly when its first cell is `key`. */
  lemma KeyConditionIsFirstCell(row: Row, key: string)
    ensures RowMatches(SettingColumns, row, map["Key" := key]) <==> |row| > 0 && row[0] == key
  {
    assert IndexOf(SettingColumns, "Key") == 0;
    OneKeyCondition(SettingColumns, row, "Key", key);
  }

  /** The workbook the generator writes answers `settings.get` with the generator's values. */
  lemma InitialSettingsValues(data: InitialData.Workbook, updatedAt: string)
    requires InitialData.IsInitialData(data, updatedAt)
    ensures SettingValue(data.settings, "OTP_EXPIRY_SECONDS") == Some("30")
    ensures SettingValue(data.settings, "LOCKER_COUNT") == Some("20")
    ensures SettingValue(data.settings, "NO_SUCH_KEY") == None
  {
    var rows := DataRows(data.settings);
    forall k | 0 <= k < |rows| ensures |rows[k]| > 1 {
    }
    KeyConditionIsFirstCell(rows[0], "OTP_EXPIRY_SECONDS");
    FirstIsEarliestMatch(SettingColumns, rows, map["Key" := "OTP_EXPIRY_SECONDS"], 0);
    forall j | 0 <= j < 2 ensures !RowMatches(SettingColumns, rows[j], map["Key" := "LOCKER_COUNT"]) {
      KeyConditionIsFirstCell(rows[j], "LOCKER_COUNT");
    }
    KeyConditionIsFirstCell(rows[2], "LOCKER_COUNT");
    FirstIsEarliestMatch(SettingColumns, rows, map["Key" := "LOCKER_COUNT"], 2);
    forall j | 0 <= j < |rows| ensures !RowMatches(SettingColumns, rows[j], map["Key" := "NO_SUCH_KEY"]) {
      KeyConditionIsFirstCell(rows[j], "NO_SUCH_KEY");
    }
    NoMatchNoFirst(SettingColumns, rows, map["Key" := "NO_SUCH_KEY"]);
  }

  /** On the generator's workbook every locker is available: `getAvailable` returns all
      twenty locker rows, in order. */
  lemma InitialLockersAllAvailable(data: InitialData.Workbook, updatedAt: string)
    requires InitialData.IsInitialData(data, updatedAt)
    ensures Select(LockerColumns, data.lockers, Some(map["Status" := "Available"])) == data.lockers[1..]
    ensures |Select(LockerColumns, data.lockers, Some(map["Status" := "Available"]))| == LockerPool.LockerCount
  {
    var rows := DataRows(data.lockers);
    assert IndexOf(LockerColumns, "Status") == 1;
    forall k | 0 <= k < |rows| ensures RowMatches(LockerColumns, rows[k], map["Status" := "Available"]) {
      assert rows[k] == data.lockers[k + 1] == InitialData.LockerRow(k + 1);
      InitialData.LockerRowMatchesDefaultLocker(k + 1);
      OneKeyCondition(LockerColumns, rows[k], "Status", "Available");
    }
    FilterAllMatching(LockerColumns, rows, map["Status" := "Available"]);
  }

  // -------------------------------------------------------------- queries

  /** The lookups of `DatabaseOperations`: each one `find` or `findOne` on a fixed table
      with a fixed condition. */
  datatype Query =
    | UserByEmail(email: string)            // users.findByEmail
    | Authenticate(email: string, password: string) // users.authenticate
    | AllUsers                              // users.getAll
    | AvailableLockers                      // lockers.getAvailable
    | LockerOfUser(userEmail: string)       // lockers.getByUser
    | AllLockers                            // lockers.getAll
    | AllOtps                               // otps.getAll
    | UserHistory(userEmail: string)        // transactions.getUserHistory
    | LockerHistory(lockerId: string)       // transactions.getLockerHistory
    | AllTransactions                       // transactions.getAll
    | SettingOf(key: string)                // settings.get
    | AllSettings                           // settings.getAll

  /** What a lookup hands back: the rows of `find`, the row or `null` of `findOne`, or
      the setting value of `settings.get`. */
  datatype Answer = Rows(rows: Sheet) | OneRow(row: Option<Row>) | Cell(value: Option<string>)

  /** The table a lookup reads. */
  function QueryTable(q: Query): (name: string)
    ensures name in TableNames
  {
    match q
    case UserByEmail(_) => "users"
    case Authenticate(_, _) => "users"
    case AllUsers => "users"
    case AvailableLockers => "lockers"
    case LockerOfUser(_) => "lockers"
    case AllLockers => "lockers"
    case AllOtps => "otps"
    case UserHistory(_) => "transactions"
    case LockerHistory(_) => "transactions"
    case AllTransactions => "transactions"
    case SettingOf(_) => "settings"
    case AllSettings => "settings"
  }

  /** The answer of lookup `q` when its table holds `data`. */
  function AnswerOn(q: Query, data: Sheet): Answer {
    match q
    case UserByEmail(email) => OneRow(First(Select(UserColumns, data, Some(map["Email" := email]))))
    case Authenticate(email, password) =>
      OneRow(First(Select(UserColumns, data, Some(map["Email" := email, "Password" := password]))))
    case AllUsers => Rows(Select(UserColumns, data, None))
    case AvailableLockers => Rows(Select(LockerColumns, data, Some(map["Status" := "Available"])))
    case LockerOfUser(userEmail) => OneRow(First(Select(LockerColumns, data, Some(map["UserEmail" := userEmail]))))
    case AllLockers => Rows(Select(LockerColumns, data, None))
    case AllOtps => Rows(Select(OtpColumns, data, None))
    case UserHistory(userEmail) => Rows(Select(TransactionColumns, data, Some(map["UserEmail" := userEmail])))
    case LockerHistory(lockerId) => Rows(Select(TransactionColumns, data, Some(map["LockerID" := lockerId])))
    case AllTransactions => Rows(Select(TransactionColumns, data, None))
    case SettingOf(key) => Cell(SettingValue(data, key))
    case AllSettings => Rows(Select(SettingColumns, data, None))
  }

  /** A users row matches `{ Email: email, Password: password }` exactly when its `Email`
      and `Password` cells hold those strings. */
  lemma CredentialsCondition(row: Row, email: string, password: string)
    ensures RowMatches(UserColumns, row, map["Email" := email, "Password" := password]) <==>
            |row| > 4 && row[2] == email && row[4] == password
  {
    assert IndexOf(UserColumns, "Email") == 2 && IndexOf(UserColumns, "Password") == 4;
    TwoKeyCondition(UserColumns, row, "Email", email, "Password", password);
  }

  /** Among data rows, the credentials filter finds a first row exactly when some row
      holds the email in the `Email` column and the password in the `Password` column. */
  lemma CredentialsAnywhere(rows: Sheet, email: string, password: string)
    ensures First(Filter(UserColumns, rows, map["Email" := email, "Password" := password])).Some? <==>
            exists k | 0 <= k < |rows| :: |rows[k]| > 4 && rows[k][2] == email && rows[k][4] == password
  {
    var c := map["Email" := email, "Password" := password];
    NoMatchNoFirst(UserColumns, rows, c);
    forall k | 0 <= k < |rows|
      ensures RowMatches(UserColumns, rows[k], c) <==> |rows[k]| > 4 && rows[k][2] == email && rows[k][4] == password
    {
      CredentialsCondition(rows[k], email, password);
    }
  }

  /** `authenticate` finds a user iff some data row has exactly this email in the `Email`
      column and exactly this password in the `Password` column. */
  lemma AuthenticateIffCredentials(data: Sheet, email: string, password: string)
    ensures AnswerOn(Authenticate(email, password), data).row.Some? <==>
            exists k | 1 <= k < |data| :: |data[k]| > 4 && data[k][2] == email && data[k][4] == password
  {
    var rows := DataRows(data);
    assert AnswerOn(Authenticate(email, password), data).row ==
           First(Filter(UserColumns, rows, map["Email" := email, "Password" := password]));
    CredentialsAnywhere(rows, email, password);
    if exists k | 1 <= k < |data| :: |data[k]| > 4 && data[k][2] == email && data[k][4] == password {
      var k :| 1 <= k < |data| && |data[k]| > 4 && data[k][2] == email && data[k][4] == password;
      assert rows[k - 1] == data[k];
    }
    if exists k | 0 <= k < |rows| :: |rows[k]| > 4 && rows[k][2] == email && rows[k][4] == password {
      var k :| 0 <= k < |rows| && |rows[k]| > 4 && rows[k][2] == email && rows[k][4] == password;
      assert data[k + 1] == rows[k];
    }
  }

  // ---------------------------------------------------------------- stubs

  /** The mutating helpers of `DatabaseOperations`, which only log that the database is
      read-only. */
  datatype StubCall =
    | CreateUser | UpdatePassword | UpdateLocker
    | AssignLocker | ReleaseLocker | OpenLocker | CloseLocker
    | CreateOtp | VerifyOtp | CleanupOtps
    | LogTransaction | SetSetting

  datatype StubResult = Null | False | Undefined

  /** Every stub answers without touching the database: the creators and the transaction
      logger return `null`, the OTP cleanup returns nothing, every other stub `false`. */
  function Stub(call: StubCall): (r: StubResult)
    ensures r == Null <==> call == CreateUser || call == CreateOtp || call == LogTransaction
    ensures r == Undefined <==> call == CleanupOtps
    ensures r != Null && r != Undefined ==> r == False
  {
    match call
    case CreateUser => Null
    case CreateOtp => Null
    case LogTransaction => Null
    case CleanupOtps => Undefined
    case _ => False
  }

  // -------------------------------------------------------------- Database

  datatype DbError = TableNotFound(name: string)

  /** `getStats`: the number of data rows (length minus the header), the configured
      columns, and the time of the call. */
  datatype TableStats = TableStats(totalRecords: int, columns: Row, lastUpdated: int)

  class Database {
    /** `this.cache`: table name to the rows handed out for it. */
    var cache: map<string, Sheet>
    /** `this.masterData`: table name to the rows read from the workbook. */
    var masterData: map<string, Sheet>
    var initialized: bool

    constructor()
      ensures cache == map[] && masterData == map[] && !initialized
    {
      cache := map[];
      masterData := map[];
      initialized := false;
    }

    /** `this.masterData[tableName] || []`. */
    function MasterTable(name: string): Sheet
      reads this
    {
      if name in masterData then masterData[name] else []
    }

    /** The rows `loadTable(name)` hands out in the current state; `None` when it throws. */
    function Served(name: string): (r: Option<Sheet>)
      reads this
      ensures r.None? <==> name !in TableNames
      ensures r.Some? ==> r.value == if name in cache then cache[name] else MasterTable(name)
    {
      if Config(name).None? then None
      else if name in cache then Some(cache[name])
      else Some(MasterTable(name))
    }

    /** `initializeDatabase`: the first call stores the tables the workbook supplied (read
        by `loadMasterFile`, given here as `loaded`) and sets the flag; every later call
        changes nothing. */
    method InitializeDatabase(loaded: map<string, Sheet>)
      modifies this`masterData, this`initialized
      ensures initialized
      ensures old(initialized) ==> masterData == old(masterData)
      ensures !old(initialized) ==> masterData == old(masterData) + loaded
    {
      if initialized {
        return;
      }
      masterData := masterData + loaded;
      initialized := true;
    }

    /** `loadTable`: throws for a name that is not configured; otherwise answers from the
        cache, filling it from the master data on a miss. What is served for any name is
        the same before and after. */
    method LoadTable(name: string) returns (r: Result<Sheet, DbError>)
      modifies this`cache
      ensures r.Failure? <==> name !in TableNames
      ensures r.Failure? ==> r.error == TableNotFound(name) && cache == old(cache)
      ensures r.Success? ==> Some(r.value) == old(Served(name)) && name in cache && cache[name] == r.value
      ensures r.Success? ==> cache == old(cache)[name := r.value]
      ensures forall n | n in old(cache) :: n in cache && cache[n] == old(cache)[n]
    {
      var config := Config(name);
      if config.None? {
        return Failure(TableNotFound(name));
      }
      if name in cache {
        return Success(cache[name]);
      }
      var data := MasterTable(name);
      cache := cache[name := data];
      r := Success(data);
    }

    /** `find`: the data rows of the table (all of them without a condition, the matching
        ones with one), or the `loadTable` error. */
    method Find(name: string, condition: Option<Condition>) returns (r: Result<Sheet, DbError>)
      modifies this`cache
      ensures r.Failure? <==> name !in TableNames
      ensures r.Success? ==> r.value == Select(Config(name).value.columns, old(Served(name)).value, condition)
      ensures forall n | n in old(cache) :: n in cache && cache[n] == old(cache)[n]
      ensures r.Success? ==> cache == old(cache)[name := old(Served(name)).value]
      ensures r.Failure? ==> cache == old(cache)
    {
      var data := LoadTable(name);
      if data.Failure? {
        return Failure(data.error);
      }
      r := Success(Select(Config(name).value.columns, data.value, condition));
    }

    /** `findOne`: the first row `find` returns, or `null`. */
    method FindOne(name: string, condition: Option<Condition>) returns (r: Result<Option<Row>, DbError>)
      modifies this`cache
      ensures r.Failure? <==> name !in TableNames
      ensures r.Success? ==> r.value == First(Select(Config(name).value.columns, old(Served(name)).value, condition))
      ensures forall n | n in old(cache) :: n in cache && cache[n] == old(cache)[n]
      ensures r.Success? ==> cache == old(cache)[name := old(Served(name)).value]
      ensures r.Failure? ==> cache == old(cache)
    {
      var results := Find(name, condition);
      if results.Failure? {
        return Failure(results.error);
      }
      r := Success(First(results.value));
    }

    /** `getStats`: the row count without the header (so -1 for a table loaded as empty),
        the configured columns, and `now` as the update time. */
    method GetStats(name: string, now: int) returns (r: Result<TableStats, DbError>)
      modifies this`cache
      ensures r.Failure? <==> name !in TableNames
      ensures r.Success? ==> r.value.totalRecords == |old(Served(name)).value| - 1
      ensures r.Success? ==> r.value.columns == Config(name).value.columns && r.value.lastUpdated == now
      ensures forall n | n in old(cache) :: n in cache && cache[n] == old(cache)[n]
      ensures r.Success? ==> cache == old(cache)[name := old(Served(name)).value]
      ensures r.Failure? ==> cache == old(cache)
    {
      var data := LoadTable(name);
      if data.Failure? {
        return Failure(data.error);
      }
      r := Success(TableStats(|data.value| - 1, Config(name).value.columns, now));
    }

    /** `clearCache`: after it, every configured table is served from the master data again. */
    method ClearCache()
      modifies this`cache
      ensures cache == map[]
      ensures forall n | n in TableNames :: Served(n) == Some(MasterTable(n))
    {
      cache := map[];
    }

    /** One of the `DatabaseOperations` lookups, run through `find`/`findOne`. */
    method Run(q: Query) returns (a: Answer)
      modifies this`cache
      ensures a == AnswerOn(q, old(Served(QueryTable(q))).value)
      ensures forall n | n in old(cache) :: n in cache && cache[n] == old(cache)[n]
      ensures cache == old(cache)[QueryTable(q) := old(Served(QueryTable(q))).value]
    {
      var data := LoadTable(QueryTable(q));
      a := AnswerOn(q, data.value);
    }
  }
}
