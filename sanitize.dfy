/** Filename derivation for the job board: user ids and profession names become
    the names of flat files in the working directory. Characters are read with
    their meaning in the C locale: only the ASCII letters and digits are
    alphanumeric, only 'A'..'Z' have a lower-case form. */
module Sanitize {

  const Extension: string := ".txt"

  predicate IsAlnum(c: char) {
    ('a' <= c <= 'z') || ('A' <= c <= 'Z') || ('0' <= c <= '9')
  }

  predicate IsUpper(c: char) {
    'A' <= c <= 'Z'
  }

  /** tolower in the C locale. */
  function ToLower(c: char): (r: char)
    ensures !IsUpper(r)
    ensures IsAlnum(r) <==> IsAlnum(c)
    ensures IsUpper(c) ==> r != c && 'a' <= r <= 'z'
    ensures IsUpper(c) ==> r as int == c as int - 'A' as int + 'a' as int
    ensures !IsUpper(c) ==> r == c
  {
    if IsUpper(c) then (c as int - 'A' as int + 'a' as int) as char else c
  }

  /** The character a sanitiser writes in place of c. */
  function Safe(c: char): (r: char)
    ensures IsAlnum(r) || r == '_'
    ensures r == c <==> IsAlnum(c) || c == '_'
    ensures IsAlnum(c) ==> r == c
    ensures !IsAlnum(c) ==> r == '_'
  {
    if IsAlnum(c) then c else '_'
  }

  /** A stem in which every character is one a sanitiser can produce. */
  predicate IsSafeStem(s: string) {
    forall i :: 0 <= i < |s| ==> IsAlnum(s[i]) || s[i] == '_'
  }

  /** Every non-alphanumeric character replaced by '_', everything else kept in place. */
  function MapAlnum(s: string): (r: string)
    ensures |r| == |s|
    ensures forall i :: 0 <= i < |s| ==> r[i] == Safe(s[i])
  {
    if s == [] then [] else [Safe(s[0])] + MapAlnum(s[1..])
  }

  /** Every letter lower-cased, everything else kept in place. */
  function LowerAll(s: string): (r: string)
    ensures |r| == |s|
    ensures forall i :: 0 <= i < |s| ==> r[i] == ToLower(s[i])
  {
    if s == [] then [] else [ToLower(s[0])] + LowerAll(s[1..])
  }

  /** The credential file of a user id: case is preserved. */
  function UserKey(id: string): string {
    MapAlnum(id) + Extension
  }

  /** The listing file of a profession: lower-cased first, then mapped. */
  function ProfessionKey(profession: string): string {
    MapAlnum(LowerAll(profession)) + Extension
  }

  /** Two ids agree up to punctuation: same length, and wherever they differ
      both characters are non-alphanumeric. */
  predicate SameUpToPunctuation(a: string, b: string) {
    |a| == |b| && forall i :: 0 <= i < |a| ==> a[i] == b[i] || (!IsAlnum(a[i]) && !IsAlnum(b[i]))
  }

  /** Two professions agree up to letter case and punctuation. */
  predicate SameUpToCaseAndPunctuation(a: string, b: string) {
    |a| == |b| &&
    forall i :: 0 <= i < |a| ==> ToLower(a[i]) == ToLower(b[i]) || (!IsAlnum(a[i]) && !IsAlnum(b[i]))
  }

  /** The loop of UserManager::sanitizeFilename: a copy of the id is rewritten
      character by character, then the extension is appended. */
  method SanitizeFilename(id: string) returns (filename: string)
    ensures filename == UserKey(id)
  {
    var stem := id;
    var i := 0;
    while i < |stem|
      invariant 0 <= i <= |stem| == |id|
      invariant forall j :: 0 <= j < i ==> stem[j] == Safe(id[j])
      invariant forall j :: i <= j < |stem| ==> stem[j] == id[j]
    {
      if !IsAlnum(stem[i]) {
        stem := stem[i := '_'];
      }
      i := i + 1;
    }
    assert stem == MapAlnum(id);
    filename := stem + Extension;
  }

  /** The filename derivation shared by postAJob and browseJobs: transform
      with tolower, then the same alphanumeric loop, then the extension. */
  method ProfessionFilename(profession: string) returns (filename: string)
    ensures filename == ProfessionKey(profession)
  {
    var stem := profession;
    var i := 0;
    while i < |stem|
      invariant 0 <= i <= |stem| == |profession|
      invariant forall j :: 0 <= j < i ==> stem[j] == ToLower(profession[j])
      invariant forall j :: i <= j < |stem| ==> stem[j] == profession[j]
    {
      stem := stem[i := ToLower(stem[i])];
      i := i + 1;
    }
    assert stem == LowerAll(profession);
    ghost var lowered := stem;
    i := 0;
    while i < |stem|
      invariant 0 <= i <= |stem| == |lowered|
      invariant forall j :: 0 <= j < i ==> stem[j] == Safe(lowered[j])
      invariant forall j :: i <= j < |stem| ==> stem[j] == lowered[j]
    {
      if !IsAlnum(stem[i]) {
        stem := stem[i := '_'];
      }
      i := i + 1;
    }
    assert stem == MapAlnum(lowered);
    filename := stem + Extension;
  }

  /** Shape of a user key: the id's length plus four, alphanumerics kept in
      place, everything else '_', then ".txt". */
  lemma UserKeyShape(id: string)
    ensures |UserKey(id)| == |id| + 4
    ensures UserKey(id)[|id|..] == ".txt"
    ensures IsSafeStem(UserKey(id)[..|id|])
    ensures forall i :: 0 <= i < |id| && IsAlnum(id[i]) ==> UserKey(id)[i] == id[i]
    ensures forall i :: 0 <= i < |id| && !IsAlnum(id[i]) ==> UserKey(id)[i] == '_'
  {
    assert UserKey(id)[..|id|] == MapAlnum(id);
  }

  /** A stem is left unchanged by the mapping exactly when it is already safe. */
  lemma MapAlnumFixedPoint(s: string)
    ensures MapAlnum(s) == s <==> IsSafeStem(s)
  {
    if IsSafeStem(s) {
      assert forall i :: 0 <= i < |s| ==> MapAlnum(s)[i] == s[i];
    }
  }

  /** Sanitising is idempotent: the stem of a user key sanitises to the same key. */
  lemma UserKeyIdempotent(id: string)
    ensures MapAlnum(MapAlnum(id)) == MapAlnum(id)
    ensures UserKey(UserKey(id)[..|id|]) == UserKey(id)
  {
    var stem := MapAlnum(id);
    assert IsSafeStem(stem);
    MapAlnumFixedPoint(stem);
    assert UserKey(id)[..|id|] == stem;
  }

  /** Two ids share a credential file exactly when they agree up to punctuation. */
  lemma UserKeyCollision(a: string, b: string)
    ensures UserKey(a) == UserKey(b) <==> SameUpToPunctuation(a, b)
  {
    if UserKey(a) == UserKey(b) {
      assert |a| == |b| by {
        assert |UserKey(a)| == |a| + 4 && |UserKey(b)| == |b| + 4;
      }
      forall i | 0 <= i < |a|
        ensures a[i] == b[i] || (!IsAlnum(a[i]) && !IsAlnum(b[i]))
      {
        assert UserKey(a)[i] == MapAlnum(a)[i];
        assert UserKey(b)[i] == MapAlnum(b)[i];
      }
    }
    if SameUpToPunctuation(a, b) {
      assert MapAlnum(a) == MapAlnum(b);
    }
  }

  /** Shape of a profession key: no upper-case letter survives in the stem,
      which holds only lower-case letters, digits and '_'. */
  lemma ProfessionKeyShape(profession: string)
    ensures |ProfessionKey(profession)| == |profession| + 4
    ensures ProfessionKey(profession)[|profession|..] == ".txt"
    ensures IsSafeStem(ProfessionKey(profession)[..|profession|])
    ensures forall i :: 0 <= i < |profession| ==> !IsUpper(ProfessionKey(profession)[i])
    ensures forall i :: 0 <= i < |profession| && IsAlnum(profession[i]) ==>
      ProfessionKey(profession)[i] == ToLower(profession[i])
    ensures forall i :: 0 <= i < |profession| && !IsAlnum(profession[i]) ==>
      ProfessionKey(profession)[i] == '_'
  {
    var key := ProfessionKey(profession);
    assert key[..|profession|] == MapAlnum(LowerAll(profession));
    forall i | 0 <= i < |profession| ensures !IsUpper(key[i]) {
      assert key[i] == Safe(ToLower(profession[i]));
    }
  }

  /** The profession rule is idempotent: the stem of a listing file's name,
      taken as a profession, names the same file. */
  lemma ProfessionKeyIdempotent(profession: string)
    ensures ProfessionKey(ProfessionKey(profession)[..|profession|]) == ProfessionKey(profession)
  {
    var stem := ProfessionKey(profession)[..|profession|];
    assert stem == MapAlnum(LowerAll(profession));
    ProfessionKeyShape(profession);
    assert LowerAll(stem) == stem by {
      forall i | 0 <= i < |stem| ensures LowerAll(stem)[i] == stem[i] {
        assert !IsUpper(stem[i]);
      }
    }
    MapAlnumFixedPoint(stem);
  }

  /** Two professions share a listing file exactly when they agree up to
      letter case and punctuation. */
  lemma ProfessionKeyCollision(a: string, b: string)
    ensures ProfessionKey(a) == ProfessionKey(b) <==> SameUpToCaseAndPunctuation(a, b)
  {
    if ProfessionKey(a) == ProfessionKey(b) {
      assert |a| == |b| by {
        assert |ProfessionKey(a)| == |a| + 4 && |ProfessionKey(b)| == |b| + 4;
      }
      forall i | 0 <= i < |a|
        ensures ToLower(a[i]) == ToLower(b[i]) || (!IsAlnum(a[i]) && !IsAlnum(b[i]))
      {
        assert ProfessionKey(a)[i] == MapAlnum(LowerAll(a))[i];
        assert ProfessionKey(b)[i] == MapAlnum(LowerAll(b))[i];
      }
    }
    if SameUpToCaseAndPunctuation(a, b) {
      assert MapAlnum(LowerAll(a)) == MapAlnum(LowerAll(b));
    }
  }

  /** At an upper-case letter the user key keeps the letter and the profession
      key lowers it. */
  lemma UpperLetterKeysDiffer(name: string, i: nat)
    requires i < |name| && IsUpper(name[i])
    ensures UserKey(name)[i] == name[i]
    ensures ProfessionKey(name)[i] == ToLower(name[i]) != name[i]
  {
    assert UserKey(name)[i] == Safe(name[i]);
    var lowered := ToLower(name[i]);
    assert LowerAll(name)[i] == lowered;
    assert ProfessionKey(name)[i] == Safe(lowered);
  }

  /** The asymmetry between the two rules: a profession key is the user key of
      the lower-cased name, and the user key of a name with an upper-case letter
      differs from it. */
  lemma ProfessionKeyIsLoweredUserKey(name: string)
    ensures ProfessionKey(name) == UserKey(LowerAll(name))
    ensures (exists i :: 0 <= i < |name| && IsUpper(name[i])) ==> UserKey(name) != ProfessionKey(name)
  {
    if exists i :: 0 <= i < |name| && IsUpper(name[i]) {
      var i :| 0 <= i < |name| && IsUpper(name[i]);
      UpperLetterKeysDiffer(name, i);
    }
  }

  /** Punctuation collides and letter case does not, for user keys. */
  lemma UserKeyExamples()
    ensures UserKey("a-b") == UserKey("a_b") == "a_b.txt"
    ensures UserKey("Bob") != UserKey("bob")
  {
    assert UserKey("Bob")[0] == 'B';
    assert UserKey("bob")[0] == 'b';
  }

  /** Every spelling of "nurse" names one listing file. */
  lemma ProfessionKeyExamples()
    ensures ProfessionKey("Nurse") == ProfessionKey("NURSE") == ProfessionKey("nurse") == "nurse.txt"
  {
    assert LowerAll("Nurse") == "nurse";
    assert LowerAll("NURSE") == "nurse";
    assert LowerAll("nurse") == "nurse";
    assert MapAlnum("nurse") == "nurse";
  }
}
