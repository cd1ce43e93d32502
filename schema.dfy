/**
 * `DATABASE_CONFIG`: the five tables of the LockMate workbook, each with its
 * sheet name and its column list (the header row of the sheet).
 */
module Schema {
  import opened Wrappers

  type Row = seq<string>
  type Sheet = seq<Row>

  const UserColumns: Row :=
    ["ID", "Name", "Email", "Phone", "Password", "LockerID", "RegistrationDate", "LastLogin", "Status"]
  const LockerColumns: Row :=
    ["LockerID", "Status", "UserEmail", "AssignedDate", "LastOpened", "LastClosed", "Location", "Size"]
  const OtpColumns: Row :=
    ["ID", "Phone", "OTP", "Expiry", "Type", "Used", "CreatedAt"]
  const TransactionColumns: Row :=
    ["ID", "UserEmail", "LockerID", "Action", "Timestamp", "OTP", "Status", "Notes"]
  const SettingColumns: Row :=
    ["Key", "Value", "Description", "UpdatedAt"]

  /** `Object.keys(DATABASE_CONFIG)`, in declaration order. */
  const TableNames: seq<string> := ["users", "lockers", "otps", "transactions", "settings"]

  datatype TableConfig = TableConfig(sheetName: string, columns: Row)

  /** `DATABASE_CONFIG[name]`: defined exactly for the five configured table names. */
  function Config(name: string): (c: Option<TableConfig>)
    ensures c.Some? <==> name in TableNames
  {
    if name == "users" then Some(TableConfig("Users", UserColumns))
    else if name == "lockers" then Some(TableConfig("Lockers", LockerColumns))
    else if name == "otps" then Some(TableConfig("OTPs", OtpColumns))
    else if name == "transactions" then Some(TableConfig("Transactions", TransactionColumns))
    else if name == "settings" then Some(TableConfig("Settings", SettingColumns))
    else None
  }
}
