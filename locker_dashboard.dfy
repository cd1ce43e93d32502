/**
 * The OTP gate of the locker dashboard: opening or closing the user's locker
 * runs `verifyOTP` first and touches the locker only when the code is accepted.
 */
module LockerDashboard {
  import opened StoreRecords
  import LocalStore

  /** `otpType`: the action the OTP dialog was opened for. */
  datatype OtpType = OpenRequest | CloseRequest

  /** The action a request logs. */
  function ActionOf(kind: OtpType): string {
    match kind
    case OpenRequest => OpenAction
    case CloseRequest => CloseAction
  }

  /** The locker after the action: `openLocker` stamps `LastOpened`, `closeLocker` stamps
      `LastClosed`, and no other field changes. */
  function Stamped(l: StoreRecords.Locker, kind: OtpType, now: int): (r: StoreRecords.Locker)
    ensures r.lockerId == l.lockerId && r.status == l.status && r.userEmail == l.userEmail
    ensures kind.OpenRequest? ==> r.lastOpened == At(now) && r.lastClosed == l.lastClosed
    ensures kind.CloseRequest? ==> r.lastClosed == At(now) && r.lastOpened == l.lastOpened
  {
    match kind
    case OpenRequest => l.(lastOpened := At(now))
    case CloseRequest => l.(lastClosed := At(now))
  }

  /** The `verifyOTP` handler of the dashboard: a refused code changes nothing; an accepted
      one is used up and then the locker is opened or closed, which (when the locker exists)
      stamps it and logs exactly one transaction. Nothing but the OTPs changes for a locker
      id that does not exist. */
  method VerifyThenAct(store: LocalStore.Store, phone: string, code: string, kind: OtpType,
                       lockerId: string, now: int, txId: string)
    returns (verified: bool)
    requires store.Valid()
    modifies store
    ensures store.Valid()
    ensures verified <==> OtpAccepts(old(store.otps), phone, code, now)
    ensures !verified ==> store.Tables() == old(store.Tables())
    ensures verified ==> store.otps == Redeem(old(store.otps), phone, code)
    ensures store.users == old(store.users)
    ensures store.lockers != old(store.lockers) || store.transactions != old(store.transactions) ==> verified
    ensures verified && FindLocker(old(store.lockers), lockerId).None? ==>
      store.lockers == old(store.lockers) && store.transactions == old(store.transactions)
    ensures verified && FindLocker(old(store.lockers), lockerId).Some? ==>
      var i := FindLocker(old(store.lockers), lockerId).value;
      && |store.lockers| == |old(store.lockers)|
      && store.lockers[i].status == old(store.lockers)[i].status
      && store.lockers[i].userEmail == old(store.lockers)[i].userEmail
      && store.transactions == old(store.transactions) +
           [Transaction(txId, old(store.lockers)[i].userEmail, lockerId, ActionOf(kind), now, "", SuccessStatus,
                        if kind.OpenRequest? then "Locker opened" else "Locker closed")]
    ensures verified && FindLocker(old(store.lockers), lockerId).None? ==>
      store.Tables() == old(store.Tables()).(otps := Redeem(old(store.otps), phone, code), stored := old(store.stored) + {Otps})
    ensures verified && FindLocker(old(store.lockers), lockerId).Some? ==>
      var i := FindLocker(old(store.lockers), lockerId).value;
      store.Tables() == old(store.Tables()).(
        otps := Redeem(old(store.otps), phone, code),
        lockers := old(store.lockers)[i := Stamped(old(store.lockers)[i], kind, now)],
        transactions := old(store.transactions) +
          [Transaction(txId, old(store.lockers)[i].userEmail, lockerId, ActionOf(kind), now, "", SuccessStatus,
                       if kind.OpenRequest? then "Locker opened" else "Locker closed")],
        stored := old(store.stored) + {Otps, Lockers, Transactions})
    ensures OccupancyConsistent(store.lockers) == old(OccupancyConsistent(store.lockers))
  {
    var isValid := store.VerifyOtp(phone, code, now);
    if !isValid {
      return false;
    }
    match kind {
      case OpenRequest =>
        var _ := store.OpenLocker(lockerId, now, txId);
      case CloseRequest =>
        var _ := store.CloseLocker(lockerId, now, txId);
    }
    verified := true;
  }
}
