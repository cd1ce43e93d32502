/**
 * `createInitialData` of the workbook generator: the five tables of a fresh
 * LockMate workbook, each a header row followed by data rows. The lockers are
 * pushed by a loop over 1..20; the settings rows are pushed one by one. The
 * `new Date().toISOString()` stamp of the settings rows is a parameter.
 */
module InitialData {
  import Schema
  import LockerPool
  import StoreRecords

  /** The `data` object: one sheet per configured table. */
  datatype Workbook = Workbook(
    users: Schema.Sheet, lockers: Schema.Sheet, otps: Schema.Sheet,
    transactions: Schema.Sheet, settings: Schema.Sheet)

  /** The row the loop pushes for locker `i`. */
  function LockerRow(i: nat): Schema.Row {
    [ LockerPool.LockerId(i), "Available", "", "", "", "",
      LockerPool.FloorLabel(i), if LockerPool.IsSmall(i) then "Small" else "Large" ]
  }

  /** The four settings rows, each stamped with `updatedAt`. */
  function SettingRows(updatedAt: string): Schema.Sheet {
    [ ["OTP_EXPIRY_SECONDS", "30", "OTP expiry time in seconds", updatedAt],
      ["MAX_LOGIN_ATTEMPTS", "3", "Maximum login attempts before lockout", updatedAt],
      ["LOCKER_COUNT", "20", "Total number of lockers", updatedAt],
      ["SYSTEM_STATUS", "ACTIVE", "Current system status", updatedAt] ]
  }

  /** What `createInitialData` returns: every table starts with its column list; users,
      OTPs and transactions hold nothing else; lockers 1..20 follow the lockers header,
      and the four settings follow the settings header. */
  ghost predicate IsInitialData(data: Workbook, updatedAt: string) {
    && data.users == [Schema.UserColumns]
    && data.otps == [Schema.OtpColumns]
    && data.transactions == [Schema.TransactionColumns]
    && |data.lockers| == LockerPool.LockerCount + 1
    && data.lockers[0] == Schema.LockerColumns
    && (forall i | 1 <= i < |data.lockers| :: data.lockers[i] == LockerRow(i))
    && data.settings == [Schema.SettingColumns] + SettingRows(updatedAt)
  }

  method CreateInitialData(updatedAt: string) returns (data: Workbook)
    ensures IsInitialData(data, updatedAt)
  {
    var users := [Schema.UserColumns];
    var lockers := [Schema.LockerColumns];
    for i := 1 to LockerPool.LockerCount + 1
      invariant |lockers| == i
      invariant lockers[0] == Schema.LockerColumns
      invariant forall k | 1 <= k < i :: lockers[k] == LockerRow(k)
    {
      ghost var before := lockers;
      lockers := lockers + [LockerRow(i)];
      forall k | 1 <= k <= i ensures lockers[k] == LockerRow(k) {
        if k < i {
          assert lockers[k] == before[k];
        }
      }
    }
    var otps := [Schema.OtpColumns];
    var transactions := [Schema.TransactionColumns];
    var settings := [Schema.SettingColumns];
    settings := settings + [["OTP_EXPIRY_SECONDS", "30", "OTP expiry time in seconds", updatedAt]];
    settings := settings + [["MAX_LOGIN_ATTEMPTS", "3", "Maximum login attempts before lockout", updatedAt]];
    settings := settings + [["LOCKER_COUNT", "20", "Total number of lockers", updatedAt]];
    settings := settings + [["SYSTEM_STATUS", "ACTIVE", "Current system status", updatedAt]];
    data := Workbook(users, lockers, otps, transactions, settings);
  }

  /** Every table of the initial workbook begins with its configured column list. */
  lemma HeadersMatchConfig(data: Workbook, updatedAt: string)
    requires IsInitialData(data, updatedAt)
    ensures data.users[0] == Schema.Config("users").value.columns
    ensures data.lockers[0] == Schema.Config("lockers").value.columns
    ensures data.otps[0] == Schema.Config("otps").value.columns
    ensures data.transactions[0] == Schema.Config("transactions").value.columns
    ensures data.settings[0] == Schema.Config("settings").value.columns
  {
  }

  /** Every locker row is as wide as the locker column list and the locker ids are
      pairwise distinct. */
  lemma LockerRowsWellFormed(data: Workbook, updatedAt: string)
    requires IsInitialData(data, updatedAt)
    ensures forall i | 1 <= i < |data.lockers| :: |data.lockers[i]| == |Schema.LockerColumns|
    ensures forall i, j | 1 <= i < j < |data.lockers| :: data.lockers[i][0] != data.lockers[j][0]
  {
    forall i, j | 1 <= i < j < |data.lockers|
      ensures data.lockers[i][0] != data.lockers[j][0]
    {
      assert data.lockers[i][0] == LockerPool.LockerId(i);
      assert data.lockers[j][0] == LockerPool.LockerId(j);
      LockerPool.LockerIdsDistinct(i, j);
    }
  }

  /** The settings table holds exactly four rows of four fields, in the order the
      generator pushes them. */
  lemma SettingsRows(data: Workbook, updatedAt: string)
    requires IsInitialData(data, updatedAt)
    ensures |data.settings| == 5
    ensures forall k | 1 <= k < 5 :: |data.settings[k]| == |Schema.SettingColumns|
    ensures data.settings[1][0] == "OTP_EXPIRY_SECONDS" && data.settings[1][1] == "30"
    ensures data.settings[2][0] == "MAX_LOGIN_ATTEMPTS" && data.settings[2][1] == "3"
    ensures data.settings[3][0] == "LOCKER_COUNT" && data.settings[3][1] == "20"
    ensures data.settings[4][0] == "SYSTEM_STATUS" && data.settings[4][1] == "ACTIVE"
  {
  }

  /** The generator's settings rows and the browser store's default settings agree: same
      key, value and description, row by row. */
  lemma SettingRowMatchesDefaultSetting(k: nat, now: int, updatedAt: string)
    requires k < 4
    ensures |SettingRows(updatedAt)| == |StoreRecords.DefaultSettings(now)| == 4
    ensures |SettingRows(updatedAt)[k]| == |Schema.SettingColumns|
    ensures SettingRows(updatedAt)[k][0] == StoreRecords.DefaultSettings(now)[k].key
    ensures SettingRows(updatedAt)[k][1] == StoreRecords.DefaultSettings(now)[k].value
    ensures SettingRows(updatedAt)[k][2] == StoreRecords.DefaultSettings(now)[k].description
  {
  }

  /** The generator's locker rows and the browser store's default lockers agree: same id,
      status, empty owner and dates, location and size, for every locker number. */
  lemma LockerRowMatchesDefaultLocker(i: nat)
    ensures |LockerRow(i)| == |Schema.LockerColumns|
    ensures LockerRow(i)[0] == StoreRecords.DefaultLocker(i).lockerId
    ensures LockerRow(i)[1] == "Available" && StoreRecords.DefaultLocker(i).status == StoreRecords.Available
    ensures LockerRow(i)[2] == StoreRecords.DefaultLocker(i).userEmail
    ensures LockerRow(i)[6] == StoreRecords.DefaultLocker(i).location
    ensures LockerRow(i)[7] == "Small" <==> StoreRecords.DefaultLocker(i).size == StoreRecords.Small
  {
    var row, l := LockerRow(i), StoreRecords.DefaultLocker(i);
    assert row[0] == LockerPool.LockerId(i) == l.lockerId;
    assert row[6] == LockerPool.FloorLabel(i) == l.location;
    if LockerPool.IsSmall(i) {
      assert row[7] == "Small" && l.size == StoreRecords.Small;
    } else {
      assert row[7] == "Large" != "Small";
    }
  }
}
