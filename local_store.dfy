/**
 * `DatabaseOperations` of the browser-local store: each operation reads a table,
 * finds a record, updates it in place or pushes/filters, and writes the table
 * back. The store is one object whose fields are the five tables and the set of
 * storage keys that exist; a key that does not exist reads as an empty table.
 */
module LocalStore {
  import opened Wrappers
  import opened StoreRecords
  import Text
  import LockerPool

  class Store {
    var users: seq<User>
    var lockers: seq<Locker>
    var otps: seq<OtpRecord>
    var transactions: seq<Transaction>
    var settings: seq<Setting>
    /** The storage keys that exist (`localStorage.getItem(key)` is not null). */
    var stored: set<Table>

    /** An absent key reads as `[]`; registration keeps emails unique and OTP issuance
        keeps at most one record per phone. */
    ghost predicate Valid()
      reads this
    {
      && (Users !in stored ==> users == [])
      && (Lockers !in stored ==> lockers == [])
      && (Otps !in stored ==> otps == [])
      && (Transactions !in stored ==> transactions == [])
      && (Settings !in stored ==> settings == [])
      && DistinctEmails(users)
      && AtMostOnePerPhone(otps)
    }

    /** The whole store as a value. */
    function Tables(): Db
      reads this
    {
      Db(users, lockers, otps, transactions, settings, stored)
    }

    /** A browser whose storage holds none of the store's keys. */
    constructor Empty()
      ensures Valid() && Tables() == Db([], [], [], [], [], {})
    {
      users, lockers, otps, transactions, settings := [], [], [], [], [];
      stored := {};
    }

    /** `initializeDefaultData`: creates every missing key (the lockers and settings with
        their defaults, the others empty) and never overwrites a key that exists. */
    method InitializeDefaultData(now: int)
      requires Valid()
      modifies this
      ensures Valid()
      ensures stored == {Users, Lockers, Otps, Transactions, Settings}
      ensures Lockers in old(stored) ==> lockers == old(lockers)
      ensures Lockers !in old(stored) ==> IsDefaultPool(lockers)
      ensures settings == if Settings in old(stored) then old(settings) else DefaultSettings(now)
      ensures users == old(users) && otps == old(otps) && transactions == old(transactions)
    {
      if Lockers !in stored {
        lockers := BuildDefaultLockers();
        stored := stored + {Lockers};
      }
      if Settings !in stored {
        settings := DefaultSettings(now);
        stored := stored + {Settings};
      }
      CreateMissingKeys();
    }

    /** The `for (let i = 1; i <= 20; i++)` loop of `initializeDefaultData`. */
    static method BuildDefaultLockers() returns (pool: seq<Locker>)
      ensures IsDefaultPool(pool)
    {
      pool := [];
      for i := 1 to LockerPool.LockerCount + 1
        invariant |pool| == i - 1
        invariant forall k | 0 <= k < |pool| :: pool[k] == DefaultLocker(k + 1)
      {
        pool := pool + [DefaultLocker(i)];
      }
    }

    /** The `Object.keys(STORAGE_KEYS).forEach` loop of `initializeDefaultData`: every missing
        key is written as `[]`, which is what it already read as. */
    method CreateMissingKeys()
      requires Valid()
      modifies this`stored, this`users, this`lockers, this`otps, this`transactions, this`settings
      ensures Valid()
      ensures stored == {Users, Lockers, Otps, Transactions, Settings}
      ensures users == old(users) && lockers == old(lockers) && otps == old(otps)
      ensures transactions == old(transactions) && settings == old(settings)
    {
      for k := 0 to |AllTables|
        invariant Valid()
        invariant old(stored) <= stored
        invariant forall j | 0 <= j < k :: AllTables[j] in stored
        invariant users == old(users) && lockers == old(lockers) && otps == old(otps)
        invariant transactions == old(transactions) && settings == old(settings)
      {
        var key := AllTables[k];
        if key !in stored {
          match key {
            case Users => users := [];
            case Lockers => lockers := [];
            case Otps => otps := [];
            case Transactions => transactions := [];
            case Settings => settings := [];
          }
          stored := stored + {key};
        }
      }
      assert AllTables[0] in stored && AllTables[1] in stored && AllTables[2] in stored;
      assert AllTables[3] in stored && AllTables[4] in stored;
      EveryTable(stored);
    }

    /** `register`: refuses an email some user already has (exact, case-sensitive match);
        otherwise appends one active user with no locker who has never logged in. */
    method Register(id: string, name: string, email: string, phone: string, password: string, now: int)
      returns (r: Option<User>)
      requires Valid()
      modifies this
      ensures Valid()
      ensures r.None? <==> exists k | 0 <= k < |old(users)| :: old(users)[k].email == email
      ensures r.None? ==> Tables() == old(Tables())
      ensures r.Some? ==> r.value == NewUser(id, name, email, phone, password, now)
      ensures r.Some? ==> Tables() == old(Tables()).(users := old(users) + [r.value], stored := old(stored) + {Users})
    {
      var user := NewUser(id, name, email, phone, password, now);
      var existing := FindUser(users, ByEmail(email));
      if existing.Some? {
        return None;
      }
      AppendNewEmailKeepsDistinct(users, user);
      users := users + [user];
      stored := stored + {Users};
      r := Some(user);
    }

    /** `login`: succeeds iff some user has exactly this email and password; stamps
        `LastLogin` on the first such user and changes nothing else. */
    method Login(email: string, password: string, now: int) returns (r: Option<User>)
      requires Valid()
      modifies this
      ensures Valid()
      ensures r.Some? <==> exists k | 0 <= k < |old(users)| :: old(users)[k].email == email && old(users)[k].password == password
      ensures r.None? ==> Tables() == old(Tables())
      ensures r.Some? ==> var k := FindUser(old(users), ByCredentials(email, password)).value;
        && r.value == old(users)[k].(lastLogin := At(now))
        && Tables() == old(Tables()).(users := old(users)[k := r.value], stored := old(stored) + {Users})
    {
      var found := FindUser(users, ByCredentials(email, password));
      if found.None? {
        return None;
      }
      var k := found.value;
      var user := users[k].(lastLogin := At(now));
      FindUserByEmailIgnoresOtherFields(users, k, user, user.email);
      users := users[k := user];
      stored := stored + {Users};
      r := Some(user);
    }

    /** `generateOTP`: stores one fresh eight-digit code for `phone`, valid for 30 seconds,
        after dropping every earlier record of that phone; other phones keep theirs. */
    method GenerateOtp(id: string, phone: string, purpose: string, value: nat, now: int) returns (code: string)
      requires Valid()
      requires OtpMin <= value <= OtpMax
      modifies this
      ensures Valid()
      ensures |code| == 8 && Text.AllDigits(code) && Text.ParseDecimal(code) == value
      ensures otps == Issue(old(otps), NewOtp(id, phone, value, purpose, now)) && code == otps[|otps| - 1].code
      ensures ForPhone(otps, phone) == [otps[|otps| - 1]]
      ensures forall q | q != phone :: ForPhone(otps, q) == ForPhone(old(otps), q)
      ensures Tables() == old(Tables()).(otps := otps, stored := old(stored) + {Otps})
    {
      var record := NewOtp(id, phone, value, purpose, now);
      IssueKeepsOnePerPhone(otps, record);
      forall q ensures ForPhone(Issue(otps, record), q) == if q == phone then [record] else ForPhone(otps, q) {
        IssueReplacesOnlyThatPhone(otps, record, q);
      }
      otps := WithoutPhone(otps, phone) + [record];
      stored := stored + {Otps};
      code := record.code;
    }

    /** `verifyOTP`: accepts iff the first record for (phone, code) is unexpired and unused,
        and then marks exactly that record used; a refusal writes nothing. */
    method VerifyOtp(phone: string, code: string, now: int) returns (ok: bool)
      requires Valid()
      modifies this
      ensures Valid()
      ensures ok == OtpAccepts(old(otps), phone, code, now)
      ensures ok ==> Tables() == old(Tables()).(otps := Redeem(old(otps), phone, code), stored := old(stored) + {Otps})
      ensures !ok ==> Tables() == old(Tables())
      ensures !OtpAccepts(otps, phone, code, now)
    {
      var found := FindOtp(otps, phone, code);
      if found.Some? {
        var i := found.value;
        if now < otps[i].expiry && !otps[i].used {
          RedeemIsSingleUse(otps, phone, code, now, now);
          RedeemKeepsOnePerPhone(otps, phone, code);
          otps := otps[i := otps[i].(used := true)];
          stored := stored + {Otps};
          return true;
        }
      }
      ok := false;
    }

    /** `resetPassword`: overwrites the password of the first user with `phone`;
        false and no write when no user has it. */
    method ResetPassword(phone: string, newPassword: string) returns (ok: bool)
      requires Valid()
      modifies this
      ensures Valid()
      ensures ok <==> exists k | 0 <= k < |old(users)| :: old(users)[k].phone == phone
      ensures !ok ==> Tables() == old(Tables())
      ensures ok ==> var k := FindUser(old(users), ByPhone(phone)).value;
        Tables() == old(Tables()).(users := old(users)[k := old(users)[k].(password := newPassword)],
                                   stored := old(stored) + {Users})
    {
      var found := FindUser(users, ByPhone(phone));
      if found.None? {
        return false;
      }
      var k := found.value;
      var user := users[k].(password := newPassword);
      FindUserByEmailIgnoresOtherFields(users, k, user, user.email);
      users := users[k := user];
      stored := stored + {Users};
      ok := true;
    }

    /** `logTransaction`: appends exactly one record to the log and touches nothing else. */
    method LogTransaction(userEmail: string, lockerId: string, action: string, otp: string,
                          status: string, notes: string, now: int, id: string)
      returns (t: Transaction)
      requires Valid()
      modifies this
      ensures Valid()
      ensures t == Transaction(id, userEmail, lockerId, action, now, otp, status, notes)
      ensures Tables() == old(Tables()).(transactions := old(transactions) + [t], stored := old(stored) + {Transactions})
    {
      t := Transaction(id, userEmail, lockerId, action, now, otp, status, notes);
      transactions := transactions + [t];
      stored := stored + {Transactions};
    }

    /** `assignLocker`: succeeds iff the locker exists and is available; then the locker
        becomes occupied by `userEmail`, the user with that email (if there is one) gets
        the locker id, and one ASSIGN/Success transaction is logged. A refusal writes nothing. */
    method AssignLocker(userEmail: string, lockerId: string, now: int, txId: string) returns (ok: bool)
      requires Valid()
      modifies this
      ensures Valid()
      ensures ok <==> AvailableAt(old(lockers), lockerId).Some?
      ensures !ok ==> Tables() == old(Tables())
      ensures ok ==> var i := AvailableAt(old(lockers), lockerId).value;
        Tables() == old(Tables()).(
          lockers := old(lockers)[i := AssignedTo(old(lockers)[i], userEmail, now)],
          users := LinkLocker(old(users), userEmail, lockerId),
          transactions := old(transactions) + [Transaction(txId, userEmail, lockerId, AssignAction, now, "",
                                                           SuccessStatus, "Locker assigned to user")],
          stored := old(stored) + {Lockers, Users, Transactions})
      ensures old(OccupancyConsistent(lockers)) && userEmail != "" ==> OccupancyConsistent(lockers)
    {
      var slot := AvailableAt(lockers, lockerId);
      if slot.None? {
        return false;
      }
      var i := slot.value;
      ghost var before := Tables();
      Occupy(i, userEmail, lockerId, now);
      var t := LogTransaction(userEmail, lockerId, AssignAction, "", SuccessStatus, "Locker assigned to user", now, txId);
      assert Tables() == before.(
        lockers := before.lockers[i := AssignedTo(before.lockers[i], userEmail, now)],
        users := LinkLocker(before.users, userEmail, lockerId),
        transactions := before.transactions + [t],
        stored := before.stored + {Lockers, Users, Transactions});
      ok := true;
    }

    /** The two writes of `assignLocker` before it logs: locker `i` becomes occupied by
        `userEmail`, and the user with that email, if any, gets `lockerId`. */
    method Occupy(i: nat, userEmail: string, lockerId: string, now: int)
      requires Valid() && i < |lockers|
      modifies this
      ensures Valid()
      ensures Tables() == old(Tables()).(
        lockers := old(lockers)[i := AssignedTo(old(lockers)[i], userEmail, now)],
        users := LinkLocker(old(users), userEmail, lockerId),
        stored := old(stored) + {Lockers, Users})
      ensures old(OccupancyConsistent(lockers)) && userEmail != "" ==> OccupancyConsistent(lockers)
    {
      if OccupancyConsistent(lockers) {
        AssignKeepsOccupancy(lockers, i, userEmail, now);
      }
      SameEmailsKeepDistinct(users, LinkLocker(users, userEmail, lockerId));
      lockers := lockers[i := AssignedTo(lockers[i], userEmail, now)];
      users := LinkLocker(users, userEmail, lockerId);
      stored := stored + {Lockers, Users};
    }

    /** `openLocker`: succeeds iff the locker exists; stamps only its `LastOpened` and logs one
        OPEN/Success transaction carrying the locker's current owner email. */
    method OpenLocker(lockerId: string, now: int, txId: string) returns (ok: bool)
      requires Valid()
      modifies this
      ensures Valid()
      ensures ok <==> FindLocker(old(lockers), lockerId).Some?
      ensures !ok ==> Tables() == old(Tables())
      ensures ok ==> exists i | 0 <= i < |old(lockers)| ::
        && FindLocker(old(lockers), lockerId) == Some(i)
        && Tables() == old(Tables()).(
             lockers := old(lockers)[i := old(lockers)[i].(lastOpened := At(now))],
             transactions := old(transactions) + [Transaction(txId, old(lockers)[i].userEmail, lockerId, OpenAction, now, "",
                                                              SuccessStatus, "Locker opened")],
             stored := old(stored) + {Lockers, Transactions})
      ensures OccupancyConsistent(lockers) == old(OccupancyConsistent(lockers))
    {
      var found := FindLocker(lockers, lockerId);
      if found.None? {
        return false;
      }
      var i := found.value;
      var owner := lockers[i].userEmail;
      StampKeepsOccupancy(lockers, i, lockers[i].(lastOpened := At(now)));
      lockers := lockers[i := lockers[i].(lastOpened := At(now))];
      stored := stored + {Lockers};
      var _ := LogTransaction(owner, lockerId, OpenAction, "", SuccessStatus, "Locker opened", now, txId);
      ok := true;
    }

    /** `closeLocker`: succeeds iff the locker exists; stamps only its `LastClosed` and logs one
        CLOSE/Success transaction carrying the locker's current owner email. */
    method CloseLocker(lockerId: string, now: int, txId: string) returns (ok: bool)
      requires Valid()
      modifies this
      ensures Valid()
      ensures ok <==> FindLocker(old(lockers), lockerId).Some?
      ensures !ok ==> Tables() == old(Tables())
      ensures ok ==> exists i | 0 <= i < |old(lockers)| ::
        && FindLocker(old(lockers), lockerId) == Some(i)
        && Tables() == old(Tables()).(
             lockers := old(lockers)[i := old(lockers)[i].(lastClosed := At(now))],
             transactions := old(transactions) + [Transaction(txId, old(lockers)[i].userEmail, lockerId, CloseAction, now, "",
                                                              SuccessStatus, "Locker closed")],
             stored := old(stored) + {Lockers, Transactions})
      ensures OccupancyConsistent(lockers) == old(OccupancyConsistent(lockers))
    {
      var found := FindLocker(lockers, lockerId);
      if found.None? {
        return false;
      }
      var i := found.value;
      var owner := lockers[i].userEmail;
      StampKeepsOccupancy(lockers, i, lockers[i].(lastClosed := At(now)));
      lockers := lockers[i := lockers[i].(lastClosed := At(now))];
      stored := stored + {Lockers};
      var _ := LogTransaction(owner, lockerId, CloseAction, "", SuccessStatus, "Locker closed", now, txId);
      ok := true;
    }

    /** `clearAllData`: removes every key and re-initialises, leaving exactly the fresh store
        (twenty available lockers with distinct ids, four settings, nothing else). */
    method ClearAllData(now: int) returns (ok: bool)
      requires Valid()
      modifies this
      ensures ok
      ensures Valid()
      ensures IsFreshDb(Tables(), now)
      ensures OccupancyConsistent(lockers)
      ensures forall i, j | 0 <= i < j < |lockers| :: lockers[i].lockerId != lockers[j].lockerId
      ensures Stats() == DbStats(0, 20, 0, 0, 4)
    {
      users, lockers, otps, transactions, settings := [], [], [], [], [];
      stored := {};
      InitializeDefaultData(now);
      DefaultPoolAvailable(lockers);
      DefaultPoolIdsDistinct(lockers);
      ok := true;
    }

    /** `getDatabaseStats`: the length of each table; a key that does not exist counts 0. */
    function Stats(): (s: DbStats)
      reads this
      requires Valid()
      ensures Users !in stored ==> s.users == 0
      ensures Lockers !in stored ==> s.lockers == 0
      ensures Otps !in stored ==> s.otps == 0
      ensures Transactions !in stored ==> s.transactions == 0
      ensures Settings !in stored ==> s.settings == 0
    {
      DbStats(|users|, |lockers|, |otps|, |transactions|, |settings|)
    }
  }
}
