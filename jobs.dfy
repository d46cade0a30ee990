/** Job listings: one append-only file per profession, named after the
    lower-cased and sanitised profession. Posting appends a fixed ten-line
    block; browsing reads every line back in file order. */
module Jobs {
  import opened Sanitize
  import opened FileStore

  /** The seven fields collected by postAJob, all free text. */
  datatype Job = Job(
    profession: string,
    name: string,
    gender: string,
    contact: string,
    address: string,
    fees: string,
    description: string)

  const Separator: string := "-----------------------------"

  datatype PostStatus = Posted | CouldNotSave

  /** The outcome of one post and the directory after it. */
  datatype PostStep = PostStep(status: PostStatus, files: FileMap)

  /** What browsing prints: the lines of the file, or the "no jobs found"
      message when the file cannot be opened. */
  datatype Listing = NotFound | Found(lines: seq<string>)

  /** Fields as std::getline delivers them: without line terminators. */
  predicate FieldsNoNewline(job: Job) {
    && NoNewline(job.profession) && NoNewline(job.name) && NoNewline(job.gender)
    && NoNewline(job.contact) && NoNewline(job.address) && NoNewline(job.fees)
    && NoNewline(job.description)
  }

  /** The text postAJob writes: one group per output statement, in order. */
  function Block(job: Job): string {
    (Separator + "\n")
    + ("Profession: " + job.profession + "\n")
    + ("Name: " + job.name + "\n")
    + ("Gender: " + job.gender + "\n")
    + ("Contact: " + job.contact + "\n")
    + ("Address: " + job.address + "\n")
    + ("Fees: " + job.fees + "\n")
    + ("Job Description: " + job.description + "\n")
    + (Separator + "\n\n")
  }

  /** The ten lines a reader finds in one posted block. */
  function JobLines(job: Job): seq<string> {
    [ Separator,
      "Profession: " + job.profession,
      "Name: " + job.name,
      "Gender: " + job.gender,
      "Contact: " + job.contact,
      "Address: " + job.address,
      "Fees: " + job.fees,
      "Job Description: " + job.description,
      Separator,
      "" ]
  }

  /** The current text of a file, an absent file reading as empty (append mode
      creates it). */
  function Existing(files: FileMap, filename: string): string {
    if filename in files then files[filename] else ""
  }

  /** One post: the block is appended to the profession's file when the file
      can be opened in append mode; otherwise nothing changes. */
  function Post(files: FileMap, job: Job, canOpen: bool): PostStep {
    var filename := ProfessionKey(job.profession);
    if canOpen then PostStep(Posted, files[filename := Existing(files, filename) + Block(job)])
    else PostStep(CouldNotSave, files)
  }

  /** One browse: every line of the profession's file, or NotFound when no
      such file can be opened. */
  function Browse(files: FileMap, profession: string, canOpen: bool): Listing {
    var filename := ProfessionKey(profession);
    if filename in files && canOpen then Found(Lines(files[filename])) else NotFound
  }

  /** postAJob on collected fields. */
  method PostAJob(dir: Directory, job: Job, canOpen: bool) returns (status: PostStatus)
    modifies dir
    ensures PostStep(status, dir.files) == Post(old(dir.files), job, canOpen)
  {
    var filename := ProfessionFilename(job.profession);
    if canOpen {
      dir.files := dir.files[filename := Existing(dir.files, filename) + Block(job)];
      status := Posted;
    } else {
      status := CouldNotSave;
    }
  }

  /** browseJobs on a collected profession: the `while (getline(...))` loop
      reads the file one line at a time. */
  method BrowseJobs(dir: Directory, profession: string, canOpen: bool) returns (listing: Listing)
    ensures listing == Browse(dir.files, profession, canOpen)
  {
    var filename := ProfessionFilename(profession);
    if filename !in dir.files || !canOpen {
      return NotFound;
    }
    var text := dir.files[filename];
    var lines: seq<string> := [];
    var pos := 0;
    while pos < |text|
      invariant 0 <= pos <= |text|
      invariant lines + Lines(text[pos..]) == Lines(text)
      decreases |text| - pos
    {
      var line, next := ReadLine(text, pos);
      assert (lines + [line]) + Lines(text[next..]) == lines + Lines(text[pos..]);
      lines := lines + [line];
      pos := next;
    }
    assert text[pos..] == [];
    listing := Found(lines);
  }

  /** Ten lines written one after another, each with its terminator. */
  lemma JoinTen(l0: string, l1: string, l2: string, l3: string, l4: string,
                l5: string, l6: string, l7: string, l8: string, l9: string)
    ensures Join([l0, l1, l2, l3, l4, l5, l6, l7, l8, l9]) ==
      (l0 + "\n") + (l1 + "\n") + (l2 + "\n") + (l3 + "\n") + (l4 + "\n")
      + (l5 + "\n") + (l6 + "\n") + (l7 + "\n") + (l8 + "\n") + (l9 + "\n")
  {
    assert Join([l0]) == l0 + "\n" by { JoinSnoc([], l0); assert [] + [l0] == [l0]; }
    assert Join([l0, l1]) == Join([l0]) + (l1 + "\n") by { JoinSnoc([l0], l1); assert [l0] + [l1] == [l0, l1]; }
    var p2 := [l0, l1];
    assert Join(p2 + [l2]) == Join(p2) + (l2 + "\n") by { JoinSnoc(p2, l2); }
    var p3 := p2 + [l2];
    assert Join(p3 + [l3]) == Join(p3) + (l3 + "\n") by { JoinSnoc(p3, l3); }
    var p4 := p3 + [l3];
    assert Join(p4 + [l4]) == Join(p4) + (l4 + "\n") by { JoinSnoc(p4, l4); }
    var p5 := p4 + [l4];
    assert Join(p5 + [l5]) == Join(p5) + (l5 + "\n") by { JoinSnoc(p5, l5); }
    var p6 := p5 + [l5];
    assert Join(p6 + [l6]) == Join(p6) + (l6 + "\n") by { JoinSnoc(p6, l6); }
    var p7 := p6 + [l6];
    assert Join(p7 + [l7]) == Join(p7) + (l7 + "\n") by { JoinSnoc(p7, l7); }
    var p8 := p7 + [l7];
    assert Join(p8 + [l8]) == Join(p8) + (l8 + "\n") by { JoinSnoc(p8, l8); }
    var p9 := p8 + [l8];
    assert Join(p9 + [l9]) == Join(p9) + (l9 + "\n") by { JoinSnoc(p9, l9); }
    assert p9 + [l9] == [l0, l1, l2, l3, l4, l5, l6, l7, l8, l9];
  }

  /** The block text is the ten lines, each followed by its terminator; the
      last output statement writes the closing separator and an empty line. */
  lemma BlockIsJoin(job: Job)
    ensures Block(job) == Join(JobLines(job))
  {
    var head := (Separator + "\n")
      + ("Profession: " + job.profession + "\n")
      + ("Name: " + job.name + "\n")
      + ("Gender: " + job.gender + "\n")
      + ("Contact: " + job.contact + "\n")
      + ("Address: " + job.address + "\n")
      + ("Fees: " + job.fees + "\n")
      + ("Job Description: " + job.description + "\n");
    JoinTen(Separator, "Profession: " + job.profession, "Name: " + job.name,
      "Gender: " + job.gender, "Contact: " + job.contact, "Address: " + job.address,
      "Fees: " + job.fees, "Job Description: " + job.description, Separator, "");
    assert Separator + "\n\n" == (Separator + "\n") + ("" + "\n");
    ConcatAssoc(head, Separator + "\n", "" + "\n");
  }

  /** A posted block reads back as exactly its ten lines: the separator, the
      seven labelled fields, the separator and an empty line. */
  lemma BlockReadsAsTenLines(job: Job)
    requires FieldsNoNewline(job)
    ensures Lines(Block(job)) == JobLines(job)
    ensures |Lines(Block(job))| == 10
    ensures Terminated(Block(job))
  {
    var ls := JobLines(job);
    assert NoNewline(Separator);
    assert AllNoNewline(ls) by {
      assert NoNewline("Profession: ") && NoNewline("Name: ") && NoNewline("Gender: ");
      assert NoNewline("Contact: ") && NoNewline("Address: ") && NoNewline("Fees: ");
      assert NoNewline("Job Description: ") && NoNewline("");
    }
    BlockIsJoin(job);
    LinesOfJoin(ls);
  }

  /** Posting appends to one file and touches no other: the old text stays as
      a prefix, an absent file counts as empty, and a failed open changes
      nothing. For a newline-terminated file the lines read back are the old
      lines followed by the ten lines of the block. */
  lemma PostEffect(files: FileMap, job: Job, canOpen: bool)
    requires FieldsNoNewline(job)
    ensures var step := Post(files, job, canOpen);
      var filename := ProfessionKey(job.profession);
      && (step.status == Posted <==> canOpen)
      && (!canOpen ==> step.files == files)
      && (canOpen ==>
          && step.files.Keys == files.Keys + {filename}
          && (forall f :: f in files && f != filename ==> step.files[f] == files[f])
          && Existing(files, filename) <= step.files[filename]
          && (Terminated(Existing(files, filename)) ==>
                Lines(step.files[filename]) == Lines(Existing(files, filename)) + JobLines(job)))
  {
    var filename := ProfessionKey(job.profession);
    var before := Existing(files, filename);
    if canOpen && Terminated(before) {
      LinesAppend(before, Block(job));
      BlockReadsAsTenLines(job);
    }
  }

  /** Browsing finds the file exactly when it exists and opens; an existing
      empty file is found with no lines, which is not the same answer as
      NotFound. */
  lemma BrowseCases(files: FileMap, profession: string, canOpen: bool)
    ensures Browse(files, profession, canOpen).Found? <==> ProfessionKey(profession) in files && canOpen
    ensures ProfessionKey(profession) !in files ==> Browse(files, profession, canOpen) == NotFound
    ensures ProfessionKey(profession) in files && files[ProfessionKey(profession)] == "" && canOpen ==>
      Browse(files, profession, canOpen) == Found([])
  {
  }

  /** What was posted under one spelling of a profession is browsed under any
      spelling that differs only in letter case or punctuation. */
  lemma PostThenBrowse(files: FileMap, job: Job, query: string)
    requires FieldsNoNewline(job)
    requires SameUpToCaseAndPunctuation(job.profession, query)
    requires Terminated(Existing(files, ProfessionKey(query)))
    ensures Browse(Post(files, job, true).files, query, true) ==
      Found(Lines(Existing(files, ProfessionKey(query))) + JobLines(job))
  {
    ProfessionKeyCollision(job.profession, query);
    PostEffect(files, job, true);
  }

  /** Successive posts under one file are browsed oldest first. */
  lemma TwoPostsOldestFirst(files: FileMap, first: Job, second: Job, query: string)
    requires FieldsNoNewline(first) && FieldsNoNewline(second)
    requires SameUpToCaseAndPunctuation(first.profession, query)
    requires SameUpToCaseAndPunctuation(second.profession, query)
    requires Terminated(Existing(files, ProfessionKey(query)))
    ensures Browse(Post(Post(files, first, true).files, second, true).files, query, true) ==
      Found(Lines(Existing(files, ProfessionKey(query))) + JobLines(first) + JobLines(second))
  {
    var filename := ProfessionKey(query);
    ProfessionKeyCollision(first.profession, query);
    ProfessionKeyCollision(second.profession, query);
    var mid := Post(files, first, true).files;
    PostEffect(files, first, true);
    assert Existing(mid, filename) == Existing(files, filename) + Block(first);
    assert Terminated(Existing(mid, filename)) by {
      BlockReadsAsTenLines(first);
    }
    PostThenBrowse(mid, second, query);
  }

  /** "Nurse", "nurse" and "NURSE" agree up to letter case. */
  lemma NurseSpellings()
    ensures SameUpToCaseAndPunctuation("Nurse", "NURSE")
    ensures SameUpToCaseAndPunctuation("nurse", "NURSE")
    ensures ProfessionKey("NURSE") == "nurse.txt"
  {
    ProfessionKeyExamples();
    ProfessionKeyCollision("Nurse", "NURSE");
    ProfessionKeyCollision("nurse", "NURSE");
  }

  /** Posting as "Nurse" and then as "nurse" into an empty directory, then
      browsing "NURSE", shows both blocks in posting order. */
  lemma NurseScenario(r1: Job, r2: Job)
    requires FieldsNoNewline(r1) && FieldsNoNewline(r2)
    requires r1.profession == "Nurse" && r2.profession == "nurse"
    ensures Browse(Post(Post(map[], r1, true).files, r2, true).files, "NURSE", true) ==
      Found(JobLines(r1) + JobLines(r2))
  {
    NurseSpellings();
    TwoPostsOldestFirst(map[], r1, r2, "NURSE");
    assert Existing(map[], ProfessionKey("NURSE")) == "";
    assert Lines("") == [];
  }

  /** Posting as "Chef" with name "Ana" and fees "500", then browsing "chef",
      shows the lines "Name: Ana" and "Fees: 500". */
  lemma ChefScenario(job: Job)
    requires FieldsNoNewline(job)
    requires job.profession == "Chef" && job.name == "Ana" && job.fees == "500"
    ensures var listing := Browse(Post(map[], job, true).files, "chef", true);
      listing.Found? && "Name: Ana" in listing.lines && "Fees: 500" in listing.lines
  {
    assert ProfessionKey("Chef") == ProfessionKey("chef") == "chef.txt";
    ProfessionKeyCollision("Chef", "chef");
    PostThenBrowse(map[], job, "chef");
    assert Existing(map[], ProfessionKey("chef")) == "";
    assert Lines("") == [];
    assert JobLines(job)[2] == "Name: Ana";
    assert JobLines(job)[6] == "Fees: 500";
  }
}
