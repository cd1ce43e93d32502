/**
 * The records of the browser-local LockMate store (users, lockers, one-time
 * passwords, transactions, settings), the lookups its operations perform with
 * `Array.prototype.find` and `filter`, and the facts about them that make the
 * OTP lifecycle and the user directory behave as promised.
 */
module StoreRecords {
  import opened Wrappers
  import Text
  import LockerPool

  /** A timestamp column: '' until first written, then the ISO string of `Date.now()` (milliseconds). */
  datatype Stamp = Unset | At(ms: int)

  datatype LockerStatus = Available | Occupied
  datatype LockerSize = Small | Large

  datatype User = User(
    id: string, name: string, email: string, phone: string, password: string,
    lockerId: string, registrationDate: Stamp, lastLogin: Stamp, status: string)

  datatype Locker = Locker(
    lockerId: string, status: LockerStatus, userEmail: string, assignedDate: Stamp,
    lastOpened: Stamp, lastClosed: Stamp, location: string, size: LockerSize)

  datatype OtpRecord = OtpRecord(
    id: string, phone: string, code: string, expiry: int, purpose: string, used: bool, createdAt: int)

  datatype Transaction = Transaction(
    id: string, userEmail: string, lockerId: string, action: string, timestamp: int,
    otp: string, status: string, notes: string)

  datatype Setting = Setting(key: string, value: string, description: string, updatedAt: int)

  /** The five `STORAGE_KEYS`. */
  datatype Table = Users | Lockers | Otps | Transactions | Settings

  /** `Object.keys(STORAGE_KEYS)`, in declaration order. */
  const AllTables: seq<Table> := [Users, Lockers, Otps, Transactions, Settings]

  /** A set of tables that holds each of the five holds exactly them. */
  lemma EveryTable(s: set<Table>)
    requires Users in s && Lockers in s && Otps in s && Transactions in s && Settings in s
    ensures s == {Users, Lockers, Otps, Transactions, Settings}
  {
    forall t | t in s ensures t in {Users, Lockers, Otps, Transactions, Settings} {
      match t {
        case Users =>
        case Lockers =>
        case Otps =>
        case Transactions =>
        case Settings =>
      }
    }
  }

  /** Every table of the store, as a value: what the five storage keys hold and which keys exist. */
  datatype Db = Db(
    users: seq<User>, lockers: seq<Locker>, otps: seq<OtpRecord>,
    transactions: seq<Transaction>, settings: seq<Setting>, stored: set<Table>)

  /** `getDatabaseStats()`: the length of each table. */
  datatype DbStats = DbStats(users: nat, lockers: nat, otps: nat, transactions: nat, settings: nat)

  const OtpWindowMs: int := 30 * 1000
  /** `Math.floor(10000000 + Math.random() * 90000000)` lies in this range. */
  const OtpMin: nat := 10000000
  const OtpMax: nat := 99999999

  const ActiveStatus := "Active"
  const SuccessStatus := "Success"
  const AssignAction := "ASSIGN"
  const OpenAction := "OPEN"
  const CloseAction := "CLOSE"

  // ---------------------------------------------------------------- users

  /** The conditions `users.find` is called with. */
  datatype UserKey = ByEmail(email: string) | ByCredentials(email: string, password: string) | ByPhone(phone: string)

  predicate UserMatches(u: User, key: UserKey) {
    match key
    case ByEmail(e) => u.email == e
    case ByCredentials(e, p) => u.email == e && u.password == p
    case ByPhone(p) => u.phone == p
  }

  /** `users.find(...)`, as the index of the first user matching `key`. */
  function FindUser(users: seq<User>, key: UserKey): (r: Option<nat>)
    ensures r.Some? ==> r.value < |users| && UserMatches(users[r.value], key)
    ensures r.Some? ==> forall j | 0 <= j < r.value :: !UserMatches(users[j], key)
    ensures r.None? <==> forall j | 0 <= j < |users| :: !UserMatches(users[j], key)
  {
    if |users| == 0 then None
    else if UserMatches(users[0], key) then Some(0)
    else match FindUser(users[1..], key)
      case None => None
      case Some(k) => Some(k + 1)
  }

  /** No two users share an email address. */
  ghost predicate DistinctEmails(users: seq<User>) {
    forall i, j | 0 <= i < j < |users| :: users[i].email != users[j].email
  }

  /** The record `register` builds: no locker, never logged in, active. */
  function NewUser(id: string, name: string, email: string, phone: string, password: string, now: int): User {
    User(id, name, email, phone, password, "", At(now), Unset, ActiveStatus)
  }

  /** Appending a user whose email nobody has keeps emails distinct. */
  lemma AppendNewEmailKeepsDistinct(users: seq<User>, u: User)
    requires DistinctEmails(users) && FindUser(users, ByEmail(u.email)).None?
    ensures DistinctEmails(users + [u])
  {
    var us := users + [u];
    forall i, j | 0 <= i < j < |us| ensures us[i].email != us[j].email {
      if j == |users| {
        assert !UserMatches(users[i], ByEmail(u.email));
      }
    }
  }

  /** Changing a user without touching the email keeps the lookups by email where they were. */
  lemma {:induction false} FindUserByEmailIgnoresOtherFields(users: seq<User>, k: nat, u: User, email: string)
    requires k < |users| && u.email == users[k].email
    ensures FindUser(users[k := u], ByEmail(email)) == FindUser(users, ByEmail(email))
  {
    if k > 0 {
      assert users[k := u][1..] == users[1..][k - 1 := u];
      FindUserByEmailIgnoresOtherFields(users[1..], k - 1, u, email);
    }
  }

  /** Rewriting users without touching any email keeps emails distinct. */
  lemma SameEmailsKeepDistinct(users: seq<User>, users': seq<User>)
    requires DistinctEmails(users) && |users'| == |users|
    requires forall j | 0 <= j < |users| :: users'[j].email == users[j].email
    ensures DistinctEmails(users')
  {
  }

  /** `assignLocker`'s user half: the first user with `email`, if any, gets `lockerId`. */
  function LinkLocker(users: seq<User>, email: string, lockerId: string): (r: seq<User>)
    ensures |r| == |users|
    ensures forall j | 0 <= j < |r| :: r[j].email == users[j].email
    ensures forall j | 0 <= j < |r| && users[j].email != email :: r[j] == users[j]
    ensures forall j | 0 <= j < |r| :: r[j] == users[j] || r[j] == users[j].(lockerId := lockerId)
  {
    match FindUser(users, ByEmail(email))
    case None => users
    case Some(j) => users[j := users[j].(lockerId := lockerId)]
  }

  /** With distinct emails, the (only) user with `email` ends up holding `lockerId`. */
  lemma LinkLockerReachesOwner(users: seq<User>, email: string, lockerId: string, j: nat)
    requires DistinctEmails(users) && j < |users| && users[j].email == email
    ensures LinkLocker(users, email, lockerId)[j] == users[j].(lockerId := lockerId)
  {
    assert FindUser(users, ByEmail(email)).Some?;
  }

  // -------------------------------------------------------------- lockers

  /** `lockers.find(l => l.LockerID === lockerId)`, as an index. */
  function FindLocker(lockers: seq<Locker>, lockerId: string): (r: Option<nat>)
    ensures r.Some? ==> r.value < |lockers| && lockers[r.value].lockerId == lockerId
    ensures r.Some? ==> forall j | 0 <= j < r.value :: lockers[j].lockerId != lockerId
    ensures r.None? <==> forall j | 0 <= j < |lockers| :: lockers[j].lockerId != lockerId
  {
    if |lockers| == 0 then None
    else if lockers[0].lockerId == lockerId then Some(0)
    else match FindLocker(lockers[1..], lockerId)
      case None => None
      case Some(k) => Some(k + 1)
  }

  /** The index `assignLocker` writes: the first locker with `lockerId`, provided it is available. */
  function AvailableAt(lockers: seq<Locker>, lockerId: string): (r: Option<nat>)
    ensures r.Some? ==> FindLocker(lockers, lockerId) == Some(r.value) && lockers[r.value].status == Available
    ensures r.None? <==> FindLocker(lockers, lockerId).None? || lockers[FindLocker(lockers, lockerId).value].status != Available
  {
    match FindLocker(lockers, lockerId)
    case None => None
    case Some(i) => if lockers[i].status == Available then Some(i) else None
  }

  /** A locker is occupied exactly when it has an owner's email. */
  ghost predicate OccupancyConsistent(lockers: seq<Locker>) {
    forall k | 0 <= k < |lockers| :: lockers[k].status == Occupied <==> lockers[k].userEmail != ""
  }

  /** The locker `assignLocker` writes back. */
  function AssignedTo(l: Locker, email: string, now: int): Locker {
    l.(status := Occupied, userEmail := email, assignedDate := At(now))
  }

  /** Assigning an available locker to a non-empty email keeps occupancy consistent;
      with the empty email it would not. */
  lemma AssignKeepsOccupancy(lockers: seq<Locker>, i: nat, email: string, now: int)
    requires OccupancyConsistent(lockers) && i < |lockers|
    ensures OccupancyConsistent(lockers[i := AssignedTo(lockers[i], email, now)]) <==> email != ""
  {
    var ls := lockers[i := AssignedTo(lockers[i], email, now)];
    if email == "" {
      assert ls[i].status == Occupied && ls[i].userEmail == "";
    }
  }

  /** Rewriting a locker without touching its status or owner leaves occupancy consistency as it was. */
  lemma StampKeepsOccupancy(lockers: seq<Locker>, i: nat, l: Locker)
    requires i < |lockers| && l.status == lockers[i].status && l.userEmail == lockers[i].userEmail
    ensures OccupancyConsistent(lockers[i := l]) == OccupancyConsistent(lockers)
  {
    var ls := lockers[i := l];
    assert forall k | 0 <= k < |lockers| :: ls[k].status == lockers[k].status && ls[k].userEmail == lockers[k].userEmail;
  }

  /** Locker `i` of the initial pool, as `initializeDefaultData` pushes it. */
  function DefaultLocker(i: nat): Locker {
    Locker(LockerPool.LockerId(i), Available, "", Unset, Unset, Unset,
           LockerPool.FloorLabel(i), if LockerPool.IsSmall(i) then Small else Large)
  }

  /** The pool `initializeDefaultData` builds: locker k + 1 at index k, twenty of them. */
  ghost predicate IsDefaultPool(pool: seq<Locker>) {
    |pool| == LockerPool.LockerCount && forall k | 0 <= k < |pool| :: pool[k] == DefaultLocker(k + 1)
  }

  /** The initial pool: every locker available and unowned. */
  lemma DefaultPoolAvailable(pool: seq<Locker>)
    requires IsDefaultPool(pool)
    ensures OccupancyConsistent(pool)
    ensures forall k | 0 <= k < |pool| :: pool[k].status == Available && pool[k].userEmail == ""
  {
    forall k | 0 <= k < |pool| ensures pool[k].status == Available && pool[k].userEmail == "" {
      assert pool[k] == DefaultLocker(k + 1);
    }
  }

  /** Lockers numbered from 1 in order carry pairwise distinct ids. */
  lemma NumberedIdsDistinct(pool: seq<Locker>)
    requires forall k | 0 <= k < |pool| :: pool[k].lockerId == LockerPool.LockerId(k + 1)
    ensures forall i, j | 0 <= i < j < |pool| :: pool[i].lockerId != pool[j].lockerId
  {
    forall i, j | 0 <= i < j < |pool|
      ensures pool[i].lockerId != pool[j].lockerId
    {
      LockerPool.LockerIdsDistinct(i + 1, j + 1);
    }
  }

  /** The initial pool's locker ids are pairwise distinct. */
  lemma DefaultPoolIdsDistinct(pool: seq<Locker>)
    requires IsDefaultPool(pool)
    ensures forall i, j | 0 <= i < j < |pool| :: pool[i].lockerId != pool[j].lockerId
  {
    forall k | 0 <= k < |pool| ensures pool[k].lockerId == LockerPool.LockerId(k + 1) {
      assert pool[k] == DefaultLocker(k + 1);
    }
    NumberedIdsDistinct(pool);
  }

  // ----------------------------------------------------------------- OTPs

  /** `otps.find(o => o.Phone === phone && o.OTP === otp)`, as an index. */
  function FindOtp(otps: seq<OtpRecord>, phone: string, code: string): (r: Option<nat>)
    ensures r.Some? ==> r.value < |otps| && otps[r.value].phone == phone && otps[r.value].code == code
    ensures r.Some? ==> forall j | 0 <= j < r.value :: !(otps[j].phone == phone && otps[j].code == code)
    ensures r.None? <==> forall j | 0 <= j < |otps| :: !(otps[j].phone == phone && otps[j].code == code)
  {
    if |otps| == 0 then None
    else if otps[0].phone == phone && otps[0].code == code then Some(0)
    else match FindOtp(otps[1..], phone, code)
      case None => None
      case Some(k) => Some(k + 1)
  }

  /** `otps.filter(o => o.Phone !== phone)`. */
  function WithoutPhone(otps: seq<OtpRecord>, phone: string): (r: seq<OtpRecord>)
    ensures |r| <= |otps|
    ensures forall k | 0 <= k < |r| :: r[k].phone != phone
    ensures forall o | o in r :: o in otps
  {
    if |otps| == 0 then []
    else if otps[0].phone == phone then WithoutPhone(otps[1..], phone)
    else [otps[0]] + WithoutPhone(otps[1..], phone)
  }

  /** The records of one phone, in order. */
  function ForPhone(otps: seq<OtpRecord>, phone: string): (r: seq<OtpRecord>)
    ensures forall k | 0 <= k < |r| :: r[k].phone == phone
  {
    if |otps| == 0 then []
    else if otps[0].phone == phone then [otps[0]] + ForPhone(otps[1..], phone)
    else ForPhone(otps[1..], phone)
  }

  /** At most one OTP record per phone number. */
  ghost predicate AtMostOnePerPhone(otps: seq<OtpRecord>) {
    forall i, j | 0 <= i < j < |otps| :: otps[i].phone != otps[j].phone
  }

  /** The record `generateOTP` stores: the random value written in decimal, valid for 30 seconds. */
  function NewOtp(id: string, phone: string, value: nat, purpose: string, now: int): (o: OtpRecord)
    requires OtpMin <= value <= OtpMax
    ensures o.phone == phone && !o.used && o.expiry == now + OtpWindowMs
    ensures |o.code| == 8 && Text.AllDigits(o.code) && Text.ParseDecimal(o.code) == value
  {
    Text.EightDigits(value);
    Text.DecimalRoundTrip(value);
    OtpRecord(id, phone, Text.DecimalString(value), now + OtpWindowMs, purpose, false, now)
  }

  /** The OTP table after `generateOTP` stored `o`: the phone's old records dropped, `o` appended. */
  function Issue(otps: seq<OtpRecord>, o: OtpRecord): seq<OtpRecord> {
    WithoutPhone(otps, o.phone) + [o]
  }

  /** What `verifyOTP` accepts: the first record for (phone, code) exists, is unexpired and unused. */
  predicate OtpAccepts(otps: seq<OtpRecord>, phone: string, code: string, now: int) {
    match FindOtp(otps, phone, code)
    case None => false
    case Some(i) => now < otps[i].expiry && !otps[i].used
  }

  /** The OTP table after a successful `verifyOTP`: that record marked used. */
  function Redeem(otps: seq<OtpRecord>, phone: string, code: string): seq<OtpRecord>
    requires FindOtp(otps, phone, code).Some?
  {
    var i := FindOtp(otps, phone, code).value;
    otps[i := otps[i].(used := true)]
  }

  lemma {:induction false} ForPhoneAppend(a: seq<OtpRecord>, b: seq<OtpRecord>, phone: string)
    ensures ForPhone(a + b, phone) == ForPhone(a, phone) + ForPhone(b, phone)
  {
    if |a| > 0 {
      assert (a + b)[1..] == a[1..] + b;
      ForPhoneAppend(a[1..], b, phone);
    } else {
      assert a + b == b;
    }
  }

  lemma {:induction false} ForPhoneWithout(otps: seq<OtpRecord>, dropped: string, phone: string)
    ensures ForPhone(WithoutPhone(otps, dropped), phone) == if phone == dropped then [] else ForPhone(otps, phone)
  {
    if |otps| > 0 {
      ForPhoneWithout(otps[1..], dropped, phone);
      if otps[0].phone != dropped {
        ForPhoneAppend([otps[0]], WithoutPhone(otps[1..], dropped), phone);
      }
    }
  }

  /** After issuing `o`, its phone has exactly the one record `o`, and every other phone
      keeps exactly the records it had, in order. */
  lemma IssueReplacesOnlyThatPhone(otps: seq<OtpRecord>, o: OtpRecord, phone: string)
    ensures ForPhone(Issue(otps, o), phone) == if phone == o.phone then [o] else ForPhone(otps, phone)
  {
    ForPhoneAppend(WithoutPhone(otps, o.phone), [o], phone);
    ForPhoneWithout(otps, o.phone, phone);
    assert ForPhone([o], phone) == if phone == o.phone then [o] else [];
  }

  lemma {:induction false} WithoutPhoneKeepsOnePerPhone(otps: seq<OtpRecord>, phone: string)
    requires AtMostOnePerPhone(otps)
    ensures AtMostOnePerPhone(WithoutPhone(otps, phone))
  {
    if |otps| > 0 {
      WithoutPhoneKeepsOnePerPhone(otps[1..], phone);
      if otps[0].phone != phone {
        var rest := WithoutPhone(otps[1..], phone);
        forall k | 0 <= k < |rest| ensures rest[k].phone != otps[0].phone {
          assert rest[k] in otps[1..];
        }
      }
    }
  }

  /** Issuing keeps "at most one OTP per phone". */
  lemma IssueKeepsOnePerPhone(otps: seq<OtpRecord>, o: OtpRecord)
    requires AtMostOnePerPhone(otps)
    ensures AtMostOnePerPhone(Issue(otps, o))
  {
    WithoutPhoneKeepsOnePerPhone(otps, o.phone);
  }

  /** Marking the found record used keeps "at most one OTP per phone". */
  lemma RedeemKeepsOnePerPhone(otps: seq<OtpRecord>, phone: string, code: string)
    requires AtMostOnePerPhone(otps) && FindOtp(otps, phone, code).Some?
    ensures AtMostOnePerPhone(Redeem(otps, phone, code))
  {
  }

  /** Right after `o` is issued, verifying its phone with `code` succeeds exactly when `code`
      is o's code, `o` is unused and `now` is before its expiry: every earlier code of
      that phone is dead, even one that has not expired. */
  lemma OtpAfterIssue(otps: seq<OtpRecord>, o: OtpRecord, code: string, now: int)
    ensures OtpAccepts(Issue(otps, o), o.phone, code, now) <==> code == o.code && !o.used && now < o.expiry
  {
    var s := Issue(otps, o);
    var w := WithoutPhone(otps, o.phone);
    assert s[|w|] == o;
    var f := FindOtp(s, o.phone, code);
    assert forall k | 0 <= k < |w| :: s[k] == w[k];
  }

  /** An issued code stops working once its 30-second window has passed. */
  lemma IssuedCodeExpires(otps: seq<OtpRecord>, id: string, phone: string, value: nat, purpose: string,
                          issuedAt: int, code: string, later: int)
    requires OtpMin <= value <= OtpMax && later >= issuedAt + OtpWindowMs
    ensures !OtpAccepts(Issue(otps, NewOtp(id, phone, value, purpose, issuedAt)), phone, code, later)
  {
    OtpAfterIssue(otps, NewOtp(id, phone, value, purpose, issuedAt), code, later);
  }

  /** Changing only the `used` flag of a record does not move the (phone, code) lookup. */
  lemma {:induction false} FindOtpIgnoresUsed(otps: seq<OtpRecord>, i: nat, b: bool, phone: string, code: string)
    requires i < |otps|
    ensures FindOtp(otps[i := otps[i].(used := b)], phone, code) == FindOtp(otps, phone, code)
  {
    if i > 0 {
      assert otps[i := otps[i].(used := b)][1..] == otps[1..][i - 1 := otps[i].(used := b)];
      FindOtpIgnoresUsed(otps[1..], i - 1, b, phone, code);
    }
  }

  /** A code verifies at most once: after a successful verification the same
      (phone, code) is refused at any later time. */
  lemma RedeemIsSingleUse(otps: seq<OtpRecord>, phone: string, code: string, now: int, later: int)
    requires OtpAccepts(otps, phone, code, now)
    ensures !OtpAccepts(Redeem(otps, phone, code), phone, code, later)
  {
    var i := FindOtp(otps, phone, code).value;
    FindOtpIgnoresUsed(otps, i, true, phone, code);
  }

  // ------------------------------------------------------------- settings

  /** The four settings `initializeDefaultData` stores. */
  function DefaultSettings(now: int): (r: seq<Setting>)
    ensures |r| == 4
  {
    [ Setting("OTP_EXPIRY_SECONDS", "30", "OTP expiry time in seconds", now),
      Setting("MAX_LOGIN_ATTEMPTS", "3", "Maximum login attempts before lockout", now),
      Setting("LOCKER_COUNT", "20", "Total number of lockers", now),
      Setting("SYSTEM_STATUS", "ACTIVE", "Current system status", now) ]
  }

  /** The default settings have distinct keys, all carry the initialisation time, and the
      numbers they advertise are the ones the store actually uses: the OTP window that
      `generateOTP` hard-codes and the size of the default locker pool. */
  lemma DefaultSettingsAgree(now: int)
    ensures forall i, j | 0 <= i < j < |DefaultSettings(now)| :: DefaultSettings(now)[i].key != DefaultSettings(now)[j].key
    ensures forall i | 0 <= i < |DefaultSettings(now)| :: DefaultSettings(now)[i].updatedAt == now
    ensures DefaultSettings(now)[0].key == "OTP_EXPIRY_SECONDS" && Text.AllDigits(DefaultSettings(now)[0].value)
    ensures Text.ParseDecimal(DefaultSettings(now)[0].value) * 1000 == OtpWindowMs
    ensures DefaultSettings(now)[2].key == "LOCKER_COUNT" && Text.AllDigits(DefaultSettings(now)[2].value)
    ensures Text.ParseDecimal(DefaultSettings(now)[2].value) == LockerPool.LockerCount
  {
    Text.DecimalRoundTrip(30);
    Text.DecimalRoundTrip(20);
    assert Text.DecimalString(30) == "30";
    assert Text.DecimalString(20) == "20";
  }

  /** The store `clearAllData` leaves behind: every key present, the default lockers and
      settings, and no users, OTPs or transactions. */
  ghost predicate IsFreshDb(db: Db, now: int) {
    && db.users == [] && IsDefaultPool(db.lockers) && db.otps == [] && db.transactions == []
    && db.settings == DefaultSettings(now) && db.stored == {Users, Lockers, Otps, Transactions, Settings}
  }
}
