/** Properties of the one working directory that credential files and listing
    files share. Both kinds of file are named by the same alphanumeric mapping
    plus ".txt", so a lower-case user id and a profession can name one file. */
module SharedDirectory {
  import opened Sanitize
  import opened FileStore
  import opened UserManager
  import opened Jobs

  /** Every file's text is empty or ends with a line terminator. */
  predicate AllTerminated(files: FileMap) {
    forall f :: f in files ==> Terminated(files[f])
  }

  /** Signup leaves no file with an unterminated last line: the only file it
      writes holds the password and its terminator. */
  lemma SignupKeepsFilesTerminated(files: FileMap, id: string, password: string, canOpen: bool)
    requires AllTerminated(files)
    ensures AllTerminated(Signup(files, id, password, canOpen).files)
  {
    var signed := Signup(files, id, password, canOpen).files;
    forall f | f in signed ensures Terminated(signed[f]) {
      if f !in files {
        var text := password + "\n";
        assert signed[f] == text && text[|text| - 1] == '\n';
      }
    }
  }

  /** Posting leaves no file with an unterminated last line, so every later
      post keeps the earlier lines as a prefix. */
  lemma PostKeepsFilesTerminated(files: FileMap, job: Job, canOpen: bool)
    requires AllTerminated(files)
    ensures AllTerminated(Post(files, job, canOpen).files)
  {
    var after := Post(files, job, canOpen).files;
    forall f | f in after ensures Terminated(after[f]) {
      var filename := ProfessionKey(job.profession);
      if canOpen && f == filename {
        var text := Existing(files, filename) + Block(job);
        assert text[|text| - 1] == '\n';
      }
    }
  }

  /** Posting a job never changes a login answer for an id whose file already
      holds a complete first line, even when the profession names that file. */
  lemma PostKeepsLogins(files: FileMap, job: Job, canOpen: bool, id: string, password: string, canRead: bool)
    requires UserKey(id) in files
    requires '\n' in files[UserKey(id)]
    ensures Login(Post(files, job, canOpen).files, id, password, canRead) == Login(files, id, password, canRead)
  {
    var filename := UserKey(id);
    if canOpen && ProfessionKey(job.profession) == filename {
      FirstLineOfAppend(files[filename], Block(job));
    }
  }

  /** A listing file doubles as a credential file: after a job is posted under
      a profession whose file is the id's, and none existed before, that id can
      no longer sign up and logs in with the separator line as its password. */
  lemma ListingFileAnswersLogin(files: FileMap, job: Job, id: string, password: string, canOpen: bool)
    requires ProfessionKey(job.profession) == UserKey(id)
    requires UserKey(id) !in files
    requires |id| >= 3
    ensures var after := Post(files, job, true).files;
      && Login(after, id, Separator, true)
      && Signup(after, id, password, canOpen).status == IdTaken
  {
    var after := Post(files, job, true).files;
    assert after[UserKey(id)] == Block(job);
    assert Block(job) == Separator + "\n" + (Block(job)[|Separator| + 1..]);
    FirstLineOfWritten(Separator, Block(job)[|Separator| + 1..]);
  }

  /** A credential file doubles as a listing file: browsing a profession whose
      file is a freshly created credential file lists the password. */
  lemma CredentialFileListedByBrowse(files: FileMap, id: string, password: string, canOpen: bool, profession: string)
    requires Signup(files, id, password, canOpen).status == SignedUp
    requires NoNewline(password)
    requires ProfessionKey(profession) == UserKey(id)
    ensures Browse(Signup(files, id, password, canOpen).files, profession, true) == Found([password])
  {
    SignupEffect(files, id, password, canOpen);
  }

  /** The concrete case: posting any job as "Nurse" into an empty directory
      lets "nurse" log in with the separator line as password. */
  lemma NurseLoginScenario(job: Job)
    requires job.profession == "Nurse"
    ensures Login(Post(map[], job, true).files, "nurse", Separator, true)
  {
    assert ProfessionKey("Nurse") == "nurse.txt" by { ProfessionKeyExamples(); }
    assert UserKey("nurse") == "nurse.txt";
    ListingFileAnswersLogin(map[], job, "nurse", "", true);
  }

  /** The concrete case: a user "chef" signing up with "pass1" has that
      password listed when "Chef" jobs are browsed. */
  lemma ChefBrowseScenario()
    ensures Browse(Signup(map[], "chef", "pass1", true).files, "Chef", true) == Found(["pass1"])
  {
    assert ProfessionKey("Chef") == "chef.txt";
    assert UserKey("chef") == "chef.txt";
    assert Signup(map[], "chef", "pass1", true).status == SignedUp;
    assert NoNewline("pass1");
    CredentialFileListedByBrowse(map[], "chef", "pass1", true, "Chef");
  }
}
