/** Credential storage: one file per user, named after the sanitised id, whose
    first line is the plaintext password. The interactive retry loops of the
    program are replaced by a single decision on already-collected strings. */
module UserManager {
  import opened Sanitize
  import opened FileStore

  datatype SignupStatus =
    | SignedUp
    | IdTooShort        // fewer than 3 characters
    | IdTaken           // a file already exists for the sanitised id
    | PasswordTooShort  // fewer than 4 characters
    | CouldNotCreate    // the output file could not be opened

  /** The outcome of one signup and the directory after it. */
  datatype SignupStep = SignupStep(status: SignupStatus, files: FileMap)

  /** One signup decision on an id and a password. The id is validated before
      the password is looked at; `canOpen` says whether the operating system let
      the credential file be opened for writing. */
  function Signup(files: FileMap, id: string, password: string, canOpen: bool): SignupStep {
    var filename := UserKey(id);
    if |id| < 3 then SignupStep(IdTooShort, files)
    else if filename in files then SignupStep(IdTaken, files)
    else if |password| < 4 then SignupStep(PasswordTooShort, files)
    else if !canOpen then SignupStep(CouldNotCreate, files)
    else SignupStep(SignedUp, files[filename := password + "\n"])
  }

  /** A login attempt: false when no file exists for the sanitised id or it
      cannot be opened, otherwise whether its first line is the password. */
  function Login(files: FileMap, id: string, password: string, canOpen: bool): bool {
    var filename := UserKey(id);
    filename in files && canOpen && password == FirstLine(files[filename])
  }

  /** UserManager::signup on collected strings: the directory changes only as
      the decision above says. */
  method DoSignup(dir: Directory, id: string, password: string, canOpen: bool) returns (status: SignupStatus)
    modifies dir
    ensures SignupStep(status, dir.files) == Signup(old(dir.files), id, password, canOpen)
  {
    if |id| < 3 {
      return IdTooShort;
    }
    var filename := SanitizeFilename(id);
    if filename in dir.files {
      return IdTaken;
    }
    if |password| < 4 {
      return PasswordTooShort;
    }
    filename := SanitizeFilename(id);
    if !canOpen {
      return CouldNotCreate;
    }
    dir.files := dir.files[filename := password + "\n"];
    status := SignedUp;
  }

  /** UserManager::checkId on collected strings; it reads the directory and
      changes nothing. */
  method CheckId(dir: Directory, id: string, password: string, canOpen: bool) returns (ok: bool)
    ensures ok == Login(dir.files, id, password, canOpen)
  {
    var filename := SanitizeFilename(id);
    if filename !in dir.files {
      return false;
    }
    if !canOpen {
      return false;
    }
    var storedPassword := FirstLine(dir.files[filename]);
    ok := password == storedPassword;
  }

  /** Every rejection, whatever its reason, leaves the directory as it was;
      success is exactly the case where every check passes. */
  lemma SignupRejectionsKeepStore(files: FileMap, id: string, password: string, canOpen: bool)
    ensures Signup(files, id, password, canOpen).status != SignedUp ==>
      Signup(files, id, password, canOpen).files == files
    ensures Signup(files, id, password, canOpen).status == SignedUp <==>
      |id| >= 3 && UserKey(id) !in files && |password| >= 4 && canOpen
    ensures |id| < 3 ==> Signup(files, id, password, canOpen).status == IdTooShort
    ensures |id| >= 3 && UserKey(id) in files ==> Signup(files, id, password, canOpen).status == IdTaken
    ensures |id| >= 3 && UserKey(id) !in files && |password| < 4 ==>
      Signup(files, id, password, canOpen).status == PasswordTooShort
  {
  }

  /** A successful signup creates exactly one file, the sanitised id's, holding
      the password as its only line; every other file is untouched. */
  lemma {:induction false} SignupEffect(files: FileMap, id: string, password: string, canOpen: bool)
    requires Signup(files, id, password, canOpen).status == SignedUp
    requires NoNewline(password)
    ensures var after := Signup(files, id, password, canOpen).files;
      && UserKey(id) !in files
      && after.Keys == files.Keys + {UserKey(id)}
      && (forall f :: f in files ==> after[f] == files[f])
      && Lines(after[UserKey(id)]) == [password]
  {
    var after := Signup(files, id, password, canOpen).files;
    assert after[UserKey(id)] == password + "\n";
    assert Join([password]) == password + "\n" by {
      assert [password][1..] == [];
    }
    LinesOfJoin([password]);
  }

  /** Signup then login: the password just chosen logs in, any other password
      does not, and logins under every other credential file are unchanged. */
  lemma SignupThenLogin(files: FileMap, id: string, password: string, canOpen: bool)
    requires Signup(files, id, password, canOpen).status == SignedUp
    requires NoNewline(password)
    ensures var after := Signup(files, id, password, canOpen).files;
      && Login(after, id, password, true)
      && (forall other :: other != password ==> !Login(after, id, other, true))
      && (forall x, p, o :: UserKey(x) != UserKey(id) ==> Login(after, x, p, o) == Login(files, x, p, o))
  {
    FirstLineOfWritten(password, "");
    assert password + "\n" + "" == password + "\n";
  }

  /** Nobody logs in under an id whose credential file does not exist. */
  lemma LoginNeedsFile(files: FileMap, id: string, password: string, canOpen: bool)
    requires Login(files, id, password, canOpen)
    ensures UserKey(id) in files && canOpen
  {
  }

  /** Once an id is taken, every id that sanitises to the same file is
      rejected, whatever the password. */
  lemma SecondSignupRejected(files: FileMap, id: string, password: string, canOpen: bool,
                             id2: string, password2: string, canOpen2: bool)
    requires Signup(files, id, password, canOpen).status == SignedUp
    requires SameUpToPunctuation(id, id2)
    ensures Signup(Signup(files, id, password, canOpen).files, id2, password2, canOpen2).status == IdTaken
  {
    UserKeyCollision(id, id2);
  }

  /** A wrong password for an existing user and any password for an unknown
      user both give the answer false (the unknown user is refused before any
      file is opened, the wrong password after reading the first line). */
  lemma LoginFailuresAlike(files: FileMap, id: string, password: string)
    requires UserKey(id) in files && FirstLine(files[UserKey(id)]) != password
    ensures Login(files, id, password, true) == Login(map[], id, password, true) == false
  {
  }

  /** The scenario of a fresh directory: "bob123" signs up with "pass1", logs
      in with it, fails with "wrong", and an unknown id fails. */
  lemma SignupLoginScenario()
    ensures var s1 := Signup(map[], "bob123", "pass1", true);
      && s1.status == SignedUp
      && Login(s1.files, "bob123", "pass1", true)
      && !Login(s1.files, "bob123", "wrong", true)
      && !Login(s1.files, "nosuchuser", "x", true)
  {
    BobSignsUp();
    assert NoNewline("pass1");
    FirstLineOfWritten("pass1", "");
    assert "pass1" + "\n" + "" == "pass1" + "\n";
  }

  /** The facts about the concrete strings of the scenario above: the signup
      passes every check, and "nosuchuser" names another file, which does not
      exist. */
  lemma BobSignsUp()
    ensures Signup(map[], "bob123", "pass1", true).status == SignedUp
    ensures !Login(Signup(map[], "bob123", "pass1", true).files, "nosuchuser", "x", true)
  {
    assert |UserKey("nosuchuser")| == 14 && |UserKey("bob123")| == 10;
  }

  /** "a-b" and "a_b" collide: after the first signs up the second is taken. */
  lemma CollidingSignupScenario()
    ensures var s2 := Signup(map[], "a-b", "secret", true);
      Signup(s2.files, "a_b", "other-secret", true).status == IdTaken
  {
    UserKeyExamples();
  }
}
