/** The profile screen: an ID-card scan unlocks editing, then the name and
    optionally the password are changed after a fixed sequence of checks.
    The original password table is an input of this model. */
module Profile {
  import opened Domain
  import opened Text
  import opened Storage
  import opened IdScanner

  /** Why an update was refused, in the order the checks are made. */
  datatype ProfileError =
    | NotVerified
    | EmptyName
    | MissingCurrentPassword
    | PasswordMismatch
    | PasswordTooShort
    | WrongCurrentPassword

  datatype UpdateOutcome = Refused(error: ProfileError) | Updated

  /** The stored dictionaries a profile update may write: `customPasswords`,
      `customUsers` and `currentUser`. */
  datatype Profiles = Profiles(passwords: map<string, string>, users: map<string, User>, current: Option<User>)

  datatype Saved = Saved(outcome: UpdateOutcome, profiles: Profiles)

  /** The checks made before anything is loaded, in the order they are made. */
  function PreCheck(isVerified: bool, newName: string, current: string, newPassword: string, confirm: string):
    Option<ProfileError>
  {
    if !isVerified then Some(NotVerified)
    else if IsBlank(newName) then Some(EmptyName)
    else if newPassword != "" || confirm != "" then
      if current == "" then Some(MissingCurrentPassword)
      else if newPassword != confirm then Some(PasswordMismatch)
      else if |newPassword| < 4 then Some(PasswordTooShort)
      else None
    else None
  }

  /** Each error is reported exactly when its check is the first to fail:
      the scan, a non-blank name, and, only when a new or confirmed password
      was typed, a current password, matching new passwords and a new
      password of at least four characters. A wrong current password is
      never found by these checks. */
  lemma PreCheckOrder(isVerified: bool, newName: string, current: string, newPassword: string, confirm: string)
    ensures var r := PreCheck(isVerified, newName, current, newPassword, confirm);
      && (r == Some(NotVerified) <==> !isVerified)
      && (r == Some(EmptyName) <==> isVerified && IsBlank(newName))
      && (r == Some(MissingCurrentPassword) <==>
          isVerified && !IsBlank(newName) && (newPassword != "" || confirm != "") && current == "")
      && (r == Some(PasswordMismatch) <==>
          isVerified && !IsBlank(newName) && (newPassword != "" || confirm != "") && current != ""
          && newPassword != confirm)
      && (r == Some(PasswordTooShort) <==>
          isVerified && !IsBlank(newName) && (newPassword != "" || confirm != "") && current != ""
          && newPassword == confirm && |newPassword| < 4)
      && r != Some(WrongCurrentPassword)
  {
  }

  /** Passing the checks leaves either no password change at all or a new
      password of at least four characters, confirmed, with a current
      password given. */
  lemma PreCheckPassed(isVerified: bool, newName: string, current: string, newPassword: string, confirm: string)
    requires PreCheck(isVerified, newName, current, newPassword, confirm).None?
    ensures isVerified && !IsBlank(newName)
    ensures newPassword == "" <==> confirm == ""
    ensures newPassword != "" ==> newPassword == confirm && |newPassword| >= 4 && current != ""
  {
  }

  /** The current-password test: a non-empty custom password, when stored,
      decides; otherwise the original password must be present and equal. */
  predicate CurrentPasswordAccepted(custom: map<string, string>, originals: map<string, string>, key: string, current: string)
  {
    if key in custom && custom[key] != "" then custom[key] == current
    else key in originals && originals[key] == current
  }

  /** A stored custom password takes precedence: the original table is
      consulted only when none is stored. */
  lemma CustomPasswordPrecedence(custom: map<string, string>, originals: map<string, string>,
                                 others: map<string, string>, key: string, current: string)
    ensures key in custom && custom[key] != "" ==>
      (CurrentPasswordAccepted(custom, originals, key, current) <==> custom[key] == current)
      && CurrentPasswordAccepted(custom, originals, key, current) == CurrentPasswordAccepted(custom, others, key, current)
    ensures !(key in custom && custom[key] != "") ==>
      (CurrentPasswordAccepted(custom, originals, key, current) <==> key in originals && originals[key] == current)
  {
  }

  /** After a change, the new password is the one accepted for that key,
      and every other student's test is as before, whatever is typed. */
  lemma ChangedPasswordAccepted(custom: map<string, string>, originals: map<string, string>, key: string, newPassword: string)
    requires newPassword != ""
    ensures CurrentPasswordAccepted(custom[key := newPassword], originals, key, newPassword)
    ensures forall k, c :: k != key ==>
      CurrentPasswordAccepted(custom[key := newPassword], originals, k, c)
      == CurrentPasswordAccepted(custom, originals, k, c)
  {
  }

  /** The student id the scan is compared with and the password key,
      empty without a user. */
  function StudentKey(u: Option<User>): string
  {
    if u.Some? then u.value.studentId else ""
  }

  /** The outcome and the stored dictionaries once the checks have passed,
      for user `u`, the name to store (the trimmed name field) and the typed
      current and new passwords: a wrong current password, when a new one
      was typed, refuses and writes nothing; otherwise the new password (if
      any) is stored under the student's key and the user with the new name
      under the student's id and as the current user. */
  function SaveResult(u: Option<User>, name: string, current: string, newPassword: string,
                      before: Profiles, originals: map<string, string>): Saved
  {
    var key := StudentKey(u);
    if newPassword != "" && !CurrentPasswordAccepted(before.passwords, originals, key, current) then
      Saved(Refused(WrongCurrentPassword), before)
    else
      var passwords := if newPassword != "" then before.passwords[key := newPassword] else before.passwords;
      if u.Some? then
        var updated := u.value.(name := name);
        Saved(Updated, Profiles(passwords, before.users[u.value.studentId := updated], Some(updated)))
      else
        Saved(Updated, Profiles(passwords, before.users, before.current))
  }

  /** Past the checks, only a wrong current password, when a new one was
      typed, refuses, and a refusal writes nothing. */
  lemma SaveRefusal(u: Option<User>, name: string, current: string, newPassword: string,
                    before: Profiles, originals: map<string, string>)
    ensures var r := SaveResult(u, name, current, newPassword, before, originals);
      && (r.outcome.Refused? <==>
           newPassword != "" && !CurrentPasswordAccepted(before.passwords, originals, StudentKey(u), current))
      && (r.outcome.Refused? ==> r.outcome == Refused(WrongCurrentPassword) && r.profiles == before)
  {
  }

  /** An update changes the stored passwords only under the student's key,
      and only when a new password was typed, which is then stored there. */
  lemma SavePasswords(u: Option<User>, name: string, current: string, newPassword: string,
                      before: Profiles, originals: map<string, string>)
    ensures var r := SaveResult(u, name, current, newPassword, before, originals);
      r.outcome.Updated? ==>
        && (forall k :: k != StudentKey(u) ==>
             (k in r.profiles.passwords <==> k in before.passwords)
             && (k in before.passwords ==> r.profiles.passwords[k] == before.passwords[k]))
        && (newPassword != "" ==> (StudentKey(u) in r.profiles.passwords
             && r.profiles.passwords[StudentKey(u)] == newPassword))
        && (newPassword == "" ==> r.profiles.passwords == before.passwords)
  {
    var r := SaveResult(u, name, current, newPassword, before, originals);
    if r.outcome.Updated? {
      var key := StudentKey(u);
      assert r.profiles.passwords == if newPassword != "" then before.passwords[key := newPassword] else before.passwords;
    }
  }

  /** An update changes the stored users only under the student's id, where
      it stores the user with only the name replaced (department and admin
      flag kept), also as the current user; without a user neither
      changes. */
  lemma SaveUsers(u: Option<User>, name: string, current: string, newPassword: string,
                  before: Profiles, originals: map<string, string>)
    ensures var r := SaveResult(u, name, current, newPassword, before, originals);
      r.outcome.Updated? ==>
        && (forall k :: (u.None? || k != u.value.studentId) ==>
             (k in r.profiles.users <==> k in before.users)
             && (k in before.users ==> r.profiles.users[k] == before.users[k]))
        && (u.Some? ==> (u.value.studentId in r.profiles.users
             && r.profiles.users[u.value.studentId] == u.value.(name := name)
             && r.profiles.current == Some(r.profiles.users[u.value.studentId])))
        && (u.None? ==> r.profiles.users == before.users && r.profiles.current == before.current)
  {
    var r := SaveResult(u, name, current, newPassword, before, originals);
    if r.outcome.Updated? && u.Some? {
      var updated := u.value.(name := name);
      assert r.profiles.users == before.users[u.value.studentId := updated];
      assert r.profiles.current == Some(updated);
    }
  }

  /** The whole update: a failed check refuses with its error and writes
      nothing; past the checks, the save decides. */
  function UpdateResult(pre: Option<ProfileError>, u: Option<User>, name: string, current: string,
                        newPassword: string, before: Profiles, originals: map<string, string>): Saved
  {
    match pre
    case Some(e) => Saved(Refused(e), before)
    case None => SaveResult(u, name, current, newPassword, before, originals)
  }

  /** A refused update writes nothing; a failed check is reported with its
      own error, and a wrong current password is only ever found past the
      checks. */
  lemma UpdateRefusalWritesNothing(pre: Option<ProfileError>, u: Option<User>, name: string, current: string,
                                   newPassword: string, before: Profiles, originals: map<string, string>)
    ensures var r := UpdateResult(pre, u, name, current, newPassword, before, originals);
      && (r.outcome.Refused? ==> r.profiles == before)
      && (pre.Some? ==> r.outcome == Refused(pre.value))
      && (pre.None? && r.outcome.Refused? ==> r.outcome.error == WrongCurrentPassword)
  {
    SaveRefusal(u, name, current, newPassword, before, originals);
  }

  class ProfileScreen {
    const user: Option<User>
    var showScanner: bool
    var isVerified: bool
    var newName: string
    var currentPassword: string
    var newPassword: string
    var confirmPassword: string
    var isLoading: bool

    /** The name field starts from the user's name. */
    constructor (u: Option<User>)
      ensures user == u && !showScanner && !isVerified && !isLoading
      ensures newName == (if u.Some? then u.value.name else "")
      ensures currentPassword == "" && newPassword == "" && confirmPassword == ""
    {
      user := u;
      showScanner := false;
      isVerified := false;
      newName := if u.Some? then u.value.name else "";
      currentPassword := "";
      newPassword := "";
      confirmPassword := "";
      isLoading := false;
    }

    /** The scanner's success callback: a last-nine match verifies and
        closes the scanner; a mismatch changes neither. */
    method HandleScanSuccess(scannedId: string)
      modifies this`isVerified, this`showScanner
      ensures SuffixMatch(scannedId, StudentKey(user)) ==> isVerified && !showScanner
      ensures !SuffixMatch(scannedId, StudentKey(user)) ==>
        isVerified == old(isVerified) && showScanner == old(showScanner)
    {
      if SuffixMatch(scannedId, StudentKey(user)) {
        isVerified := true;
        showScanner := false;
      }
    }

    /** The "scan ID card" button. */
    method OpenScanner()
      modifies this`showScanner
      ensures showScanner && isVerified == old(isVerified)
    {
      showScanner := true;
    }

    /** The scanner's close callback. */
    method CloseScanner()
      modifies this`showScanner
      ensures !showScanner && isVerified == old(isVerified)
    {
      showScanner := false;
    }

    /** `handleUpdateProfile` with `originals` standing for the original
        password table. A refused check writes nothing and leaves the busy
        flag alone; past the checks, the outcome and the stored dictionaries
        are those `SaveResult` gives, and the busy flag ends down. */
    method HandleUpdateProfile(store: Store, originals: map<string, string>) returns (outcome: UpdateOutcome)
      modifies this`isLoading, store`customPasswords, store`customUsers, store`currentUser
      ensures UpdateResult(PreCheck(isVerified, newName, currentPassword, newPassword, confirmPassword),
                           user, Trim(newName), currentPassword, newPassword,
                           Profiles(old(store.customPasswords), old(store.customUsers), old(store.currentUser)), originals)
        == Saved(outcome, Profiles(store.customPasswords, store.customUsers, store.currentUser))
      ensures PreCheck(isVerified, newName, currentPassword, newPassword, confirmPassword).Some? ==> isLoading == old(isLoading)
      ensures PreCheck(isVerified, newName, currentPassword, newPassword, confirmPassword).None? ==> !isLoading
    {
      var pre := PreCheck(isVerified, newName, currentPassword, newPassword, confirmPassword);
      if pre.Some? {
        return Refused(pre.value);
      }
      isLoading := true;
      outcome := SaveProfile(store, originals);
    }

    /** The part of `handleUpdateProfile` after the busy flag goes up: the
        current-password test, then the writes; the flag is down on every
        way out. */
    method SaveProfile(store: Store, originals: map<string, string>) returns (outcome: UpdateOutcome)
      modifies this`isLoading, store`customPasswords, store`customUsers, store`currentUser
      ensures SaveResult(user, Trim(newName), currentPassword, newPassword,
             Profiles(old(store.customPasswords), old(store.customUsers), old(store.currentUser)), originals)
        == Saved(outcome, Profiles(store.customPasswords, store.customUsers, store.currentUser))
      ensures !isLoading
    {
      ghost var before := Profiles(store.customPasswords, store.customUsers, store.currentUser);
      ghost var expected := SaveResult(user, Trim(newName), currentPassword, newPassword, before, originals);
      var accepted := WritePassword(store, originals);
      if !accepted {
        assert expected == Saved(Refused(WrongCurrentPassword), before);
        isLoading := false;
        return Refused(WrongCurrentPassword);
      }
      ghost var passwords := store.customPasswords;
      assert expected.profiles.passwords == passwords;
      WriteUser(store);
      assert expected == Saved(Updated, Profiles(passwords, store.customUsers, store.currentUser));
      isLoading := false;
      return Updated;
    }

    /** The current-password test and, when it passes, the new password's
        write under the student's key. */
    method WritePassword(store: Store, originals: map<string, string>) returns (accepted: bool)
      modifies store`customPasswords
      ensures accepted <==> newPassword == "" || CurrentPasswordAccepted(old(store.customPasswords), originals, StudentKey(user), currentPassword)
      ensures store.customPasswords == if accepted && newPassword != "" then old(store.customPasswords)[StudentKey(user) := newPassword]
                                        else old(store.customPasswords)
    {
      if newPassword != "" {
        if !CurrentPasswordAccepted(store.customPasswords, originals, StudentKey(user), currentPassword) {
          return false;
        }
        store.customPasswords := store.customPasswords[StudentKey(user) := newPassword];
      }
      return true;
    }

    /** The user with the trimmed new name, stored under the student's id
        and as the current user; nothing without a user. */
    method WriteUser(store: Store)
      modifies store`customUsers, store`currentUser
      ensures user.Some? ==> (store.customUsers == old(store.customUsers)[user.value.studentId := user.value.(name := Trim(newName))]
        && store.currentUser == Some(user.value.(name := Trim(newName))))
      ensures user.None? ==> store.customUsers == old(store.customUsers) && store.currentUser == old(store.currentUser)
    {
      if user.Some? {
        var updated := user.value.(name := Trim(newName));
        store.customUsers := store.customUsers[user.value.studentId := updated];
        store.currentUser := Some(updated);
      }
    }
  }
}
