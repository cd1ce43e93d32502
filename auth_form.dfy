/**
 * The sign-in / sign-up form: its two validators, which fill an error map one
 * field at a time, and the OTP step of a password reset, which changes a
 * password only after the one-time password has been accepted.
 */
module AuthForm {
  import Text
  import opened StoreRecords
  import LocalStore

  /** `formData`: the five inputs of the form. */
  datatype FormData = FormData(name: string, email: string, phone: string, password: string, confirmPassword: string)

  /** The keys of `newErrors`. */
  datatype Field = NameField | EmailField | PhoneField | PasswordField | ConfirmField

  const NameRequired := "Name is required"
  const PhoneRequired := "Phone number is required"
  const PasswordsDiffer := "Passwords do not match"
  const EmailRequired := "Email is required"
  const EmailInvalid := "Email is invalid"
  const PasswordRequired := "Password is required"
  const PasswordTooShort := "Password must be at least 6 characters"
  const MinPasswordLength := 6

  /** The email rule: non-blank, and somewhere a non-space run, '@', a non-space run, '.',
      a non-space run (the unanchored `/\S+@\S+\.\S+/`). */
  ghost predicate EmailAcceptable(email: string) {
    !Text.IsBlank(email) && Text.EmailShaped(email)
  }

  /** The password rule: non-blank, and at least six characters counted untrimmed. */
  ghost predicate PasswordAcceptable(password: string) {
    !Text.IsBlank(password) && |password| >= MinPasswordLength
  }

  /** When `validateForm` returns true: the email and password rules, and in sign-up mode
      also a non-blank name and phone and a matching confirmation. */
  ghost predicate FormAccepted(isLogin: bool, form: FormData) {
    && (!isLogin ==> !Text.IsBlank(form.name) && !Text.IsBlank(form.phone) && form.password == form.confirmPassword)
    && EmailAcceptable(form.email)
    && PasswordAcceptable(form.password)
  }

  /** When `validatePasswordResetForm` returns true: a non-blank phone, an acceptable
      password and a matching confirmation; the email is not looked at. */
  ghost predicate ResetFormAccepted(form: FormData) {
    !Text.IsBlank(form.phone) && PasswordAcceptable(form.password) && form.password == form.confirmPassword
  }

  /** `!value.trim()`: the input is empty once trimmed exactly when it is all whitespace. */
  method TrimsToEmpty(value: string) returns (empty: bool)
    ensures empty <==> Text.IsBlank(value)
  {
    empty := Text.Trim(value) == "";
  }

  /** `validateForm`. Each field gets at most one message; for the email and the password
      "required" wins over "invalid" and "too short"; in login mode the name, phone and
      confirmation are never examined. */
  method ValidateForm(isLogin: bool, form: FormData) returns (errors: map<Field, string>, valid: bool)
    ensures valid <==> errors == map[]
    ensures valid <==> FormAccepted(isLogin, form)
    ensures NameField in errors <==> !isLogin && Text.IsBlank(form.name)
    ensures PhoneField in errors <==> !isLogin && Text.IsBlank(form.phone)
    ensures ConfirmField in errors <==> !isLogin && form.password != form.confirmPassword
    ensures EmailField in errors <==> !EmailAcceptable(form.email)
    ensures PasswordField in errors <==> !PasswordAcceptable(form.password)
    ensures EmailField in errors ==> errors[EmailField] == if Text.IsBlank(form.email) then EmailRequired else EmailInvalid
    ensures PasswordField in errors ==>
      errors[PasswordField] == if Text.IsBlank(form.password) then PasswordRequired else PasswordTooShort
    ensures NameField in errors ==> errors[NameField] == NameRequired
    ensures PhoneField in errors ==> errors[PhoneField] == PhoneRequired
    ensures ConfirmField in errors ==> errors[ConfirmField] == PasswordsDiffer
  {
    var nameBlank := TrimsToEmpty(form.name);
    var phoneBlank := TrimsToEmpty(form.phone);
    var emailBlank := TrimsToEmpty(form.email);
    var passwordBlank := TrimsToEmpty(form.password);
    errors := map[];
    if !isLogin {
      if nameBlank {
        errors := errors[NameField := NameRequired];
      }
      if phoneBlank {
        errors := errors[PhoneField := PhoneRequired];
      }
      if form.password != form.confirmPassword {
        errors := errors[ConfirmField := PasswordsDiffer];
      }
    }
    if emailBlank {
      errors := errors[EmailField := EmailRequired];
    } else if !Text.EmailShaped(form.email) {
      errors := errors[EmailField := EmailInvalid];
    }
    if passwordBlank {
      errors := errors[PasswordField := PasswordRequired];
    } else if |form.password| < MinPasswordLength {
      errors := errors[PasswordField := PasswordTooShort];
    }
    valid := |errors| == 0;
  }

  /** `validatePasswordResetForm`: the phone, the password and the confirmation, each with
      at most one message; it never reports the name or the email. */
  method ValidatePasswordResetForm(form: FormData) returns (errors: map<Field, string>, valid: bool)
    ensures valid <==> errors == map[]
    ensures valid <==> ResetFormAccepted(form)
    ensures NameField !in errors && EmailField !in errors
    ensures PhoneField in errors <==> Text.IsBlank(form.phone)
    ensures PasswordField in errors <==> !PasswordAcceptable(form.password)
    ensures ConfirmField in errors <==> form.password != form.confirmPassword
    ensures PhoneField in errors ==> errors[PhoneField] == PhoneRequired
    ensures PasswordField in errors ==>
      errors[PasswordField] == if Text.IsBlank(form.password) then PasswordRequired else PasswordTooShort
    ensures ConfirmField in errors ==> errors[ConfirmField] == PasswordsDiffer
  {
    var phoneBlank := TrimsToEmpty(form.phone);
    var passwordBlank := TrimsToEmpty(form.password);
    errors := map[];
    if phoneBlank {
      errors := errors[PhoneField := PhoneRequired];
    }
    if passwordBlank {
      errors := errors[PasswordField := PasswordRequired];
    } else if |form.password| < MinPasswordLength {
      errors := errors[PasswordField := PasswordTooShort];
    }
    if form.password != form.confirmPassword {
      errors := errors[ConfirmField := PasswordsDiffer];
    }
    valid := |errors| == 0;
  }

  /** Login mode looks only at the email and the password. */
  lemma LoginIgnoresSignUpFields(form: FormData, name: string, phone: string, confirm: string)
    ensures FormAccepted(true, form) <==> FormAccepted(true, form.(name := name, phone := phone, confirmPassword := confirm))
  {
  }

  /** Whatever sign-up accepts, login accepts too. */
  lemma SignUpStricterThanLogin(form: FormData)
    ensures FormAccepted(false, form) ==> FormAccepted(true, form)
  {
  }

  /** A password of six spaces is long enough but blank, so it is refused as missing. */
  lemma BlankPasswordRefused()
    ensures !PasswordAcceptable("      ") && |"      "| >= MinPasswordLength
  {
    assert Text.IsSpace("      "[0]);
  }

  /** How `handleOTPVerification` ends: the code was refused, the code was accepted but
      no user has the phone, or the password was reset. */
  datatype ResetOutcome = InvalidOtp | ResetFailed | ResetDone

  /** `handleOTPVerification`: `verifyOTP` first; only when it accepts is `resetPassword`
      called. A refused code changes nothing at all; an accepted one is used up, and the
      first user with the phone, if any, gets the new password. */
  method HandleOtpVerification(store: LocalStore.Store, phone: string, code: string, newPassword: string, now: int)
    returns (outcome: ResetOutcome)
    requires store.Valid()
    modifies store
    ensures store.Valid()
    ensures outcome == InvalidOtp <==> !OtpAccepts(old(store.otps), phone, code, now)
    ensures outcome == InvalidOtp ==> store.Tables() == old(store.Tables())
    ensures outcome == ResetFailed <==>
      OtpAccepts(old(store.otps), phone, code, now) && FindUser(old(store.users), ByPhone(phone)).None?
    ensures outcome != InvalidOtp ==> store.otps == Redeem(old(store.otps), phone, code)
    ensures outcome == ResetDone ==> var k := FindUser(old(store.users), ByPhone(phone)).value;
      store.users == old(store.users)[k := old(store.users)[k].(password := newPassword)]
    ensures outcome != ResetDone ==> store.users == old(store.users)
    ensures store.users != old(store.users) ==> OtpAccepts(old(store.otps), phone, code, now)
    ensures store.lockers == old(store.lockers) && store.transactions == old(store.transactions)
    ensures outcome == ResetFailed ==>
      store.Tables() == old(store.Tables()).(otps := Redeem(old(store.otps), phone, code), stored := old(store.stored) + {Otps})
    ensures outcome == ResetDone ==> var k := FindUser(old(store.users), ByPhone(phone)).value;
      store.Tables() == old(store.Tables()).(
        otps := Redeem(old(store.otps), phone, code),
        users := old(store.users)[k := old(store.users)[k].(password := newPassword)],
        stored := old(store.stored) + {Otps, Users})
  {
    var isValid := store.VerifyOtp(phone, code, now);
    if !isValid {
      return InvalidOtp;
    }
    var success := store.ResetPassword(phone, newPassword);
    if success {
      outcome := ResetDone;
    } else {
      outcome := ResetFailed;
    }
  }
}
