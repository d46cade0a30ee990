# Job board data layer, modelled in Dafny

This project models the data layer of a terminal job board. It has two parts:

- **User credentials.** `UserManager::signup` and `UserManager::checkId` keep one file per user.
  The file is named after the sanitised user id. Its first line is the plaintext password.
- **Job listings.** `postAJob` and `browseJobs` keep one append-only file per profession.
  The file is named after the lower-cased, sanitised profession.

The working directory is a value of type `FileMap`, a map from filename to the file's full text. A file exists (`stat` succeeds) exactly when its name is a key, compared character by character as on a case-sensitive file system. The class `FileStore.Directory` holds that map as the state the writing operations update in place.

Reading follows `std::getline`:
- `FirstLine` is one `getline`: the text before the first `'\n'`. An empty file gives `""`.
- `Lines` is the `while (getline(...))` loop. A final segment without `'\n'` still counts as a line.

The model keeps the text itself rather than a list of lines, so it writes exactly the `'\n'` the program writes. "A post appends ten lines and keeps the old lines" is therefore a proved lemma. It holds for any file whose text is empty or ends with `'\n'`. Signup and post keep every file in that form (`SharedDirectory.SignupKeepsFilesTerminated`, `SharedDirectory.PostKeepsFilesTerminated`).

Modules:
- `Sanitize` (sanitize.dfy): the two filename rules, as functions and as the character loops of the program.
- `FileStore` (filestore.dfy): the directory, and line reading and writing.
- `UserManager` (usermanager.dfy): the signup decision, login, and the two operations on a `Directory`.
- `Jobs` (jobs.dfy): posting and browsing.
- `SharedDirectory` (shared.dfy): properties of the one directory that both kinds of file share.

The interactive retry loops are replaced by one decision on strings that have already been collected. Signup checks, in the program's order:
1. an id shorter than 3 characters;
2. an id whose sanitised file already exists;
3. a password shorter than 4 characters;
4. whether the file can be opened for writing.

Whether the operating system lets a file be opened is a boolean parameter, `canOpen`.

Behaviour of the program worth knowing:
- Browsing an absent profession prints a distinct "no jobs found" message, not an empty listing. The model returns `NotFound`. An existing empty file gives `Found([])`.
- Credential files and listing files share one namespace. Both rules turn every non-alphanumeric character into `_` and add `.txt`. The profession rule first lowers every letter, so a listing file is the credential file of the lower-cased spelling: profession "Chef" names `chef.txt`, the file of user "chef", while user "Chef" names `Chef.txt`. Consequences, proved in `SharedDirectory`:
  - After a job is posted as "Nurse", the id "nurse" is taken, and it logs in with the separator line as its password.
  - After user "chef" signs up, browsing "Chef" lists that user's password.

## Model

| member | source | states |
|---|---|---|
| `Sanitize.ToLower` | main.cpp:328 | C-locale `tolower`: the result is never upper case, is alphanumeric iff the input is, maps each of `A`..`Z` to its own lower-case letter (the same offset in the code table), and leaves every other character unchanged |
| `Sanitize.Safe` | main.cpp:200-201 | the replacement character is alphanumeric or `_`, keeps every alphanumeric character, turns every other character into `_`, and so equals the input exactly when the input is alphanumeric or already `_` |
| `Sanitize.MapAlnum` | main.cpp:198-202 | the mapped stem has the input's length, and each position holds the input character if it is alphanumeric, else `_` |
| `Sanitize.LowerAll` | main.cpp:328 | the lowered string has the input's length, and each position holds the lowered input character |
| `Sanitize.SanitizeFilename` | main.cpp:195-204 | the in-place character loop plus `.txt` computes exactly `UserKey(id)` |
| `Sanitize.ProfessionFilename` | main.cpp:327-332 | the `transform(tolower)` pass, then the alphanumeric loop, then `.txt` compute exactly `ProfessionKey(profession)` |
| `Sanitize.UserKeyShape` | main.cpp:195-204 | a user key is 4 longer than the id and ends in `.txt`; alphanumerics are kept in place, every other character becomes `_`, and the stem holds only alphanumerics and `_` |
| `Sanitize.MapAlnumFixedPoint` | main.cpp:198-202 | the mapping leaves a stem unchanged iff the stem holds only alphanumerics and `_` |
| `Sanitize.UserKeyIdempotent` | main.cpp:195-204 | sanitising is idempotent; the stem of a user key sanitises back to the same key |
| `Sanitize.UserKeyCollision` | main.cpp:195-204 | two ids share a credential file iff they have the same length and differ only where both characters are non-alphanumeric |
| `Sanitize.ProfessionKeyShape` | main.cpp:327-332 | a profession key is 4 longer than the name and ends in `.txt`; no upper-case letter survives, the stem holds only alphanumerics and `_`, alphanumerics appear lower-cased in place, and every other character becomes `_` |
| `Sanitize.ProfessionKeyIdempotent` | main.cpp:327-332 | the profession rule is idempotent: the stem of a listing file's name, taken as a profession, names the same file |
| `Sanitize.ProfessionKeyCollision` | main.cpp:369-374 | two professions share a listing file iff they have the same length and differ only in letter case or where both characters are non-alphanumeric |
| `Sanitize.ProfessionKeyIsLoweredUserKey` | main.cpp:327-332 | the profession rule is the user rule applied after lower-casing; a name with an upper-case letter gets different user and profession keys |
| `Sanitize.UpperLetterKeysDiffer` | main.cpp:327-332 | at an upper-case letter the user key keeps the letter and the profession key holds its lower-case form, which differs |
| `Sanitize.UserKeyExamples` | main.cpp:195-204 | "a-b" and "a_b" both map to `a_b.txt`; "Bob" and "bob" stay apart as user keys |
| `Sanitize.ProfessionKeyExamples` | main.cpp:327-332 | "Nurse", "NURSE" and "nurse" all map to `nurse.txt` |
| `FileStore.LineEndFacts` | main.cpp:289-290 | the first line holds no `'\n'` and stops at a `'\n'` unless it runs to the end of the text |
| `FileStore.LineEndUnique` | main.cpp:289-290 | a position that holds the first `'\n'`, or the end of a text without one, is where the first line ends |
| `FileStore.FirstLine` | main.cpp:289-290 | what one `getline` extracts is newline-free, is a prefix of the file, and is followed by `'\n'` unless it is the whole file |
| `FileStore.LinesNoNewline` | main.cpp:381-385 | no line the read loop yields contains a `'\n'` |
| `FileStore.ReadLine` | main.cpp:382 | one `getline` in the loop returns a newline-free line and a later position, and the lines still to read are that line followed by the lines after the new position |
| `FileStore.Join` | main.cpp:337-345 | text written as lines each followed by `"\n"` is terminated and has at least one character per line |
| `FileStore.JoinSnoc` | main.cpp:337-345 | writing one more line appends that line and its terminator to the text |
| `FileStore.LineEndOfAppend` | main.cpp:334 | appending text after a `'\n'` leaves the end of the first line where it was |
| `FileStore.FirstLineOfAppend` | main.cpp:334 | appending to a file that already holds a `'\n'` leaves its first line unchanged |
| `FileStore.FirstLineOfWritten` | main.cpp:259 | a newline-free line written with its terminator is read back by one `getline` as that line |
| `FileStore.LinesAppendStep` | main.cpp:334 | appending to a text that holds a `'\n'` keeps its first line, and reading continues into the appended text |
| `FileStore.LinesAppend` | main.cpp:334 | for a terminated text, the lines of the text plus an appended part are the old lines followed by the appended part's lines |
| `FileStore.LinesOfWritten` | main.cpp:259 | a newline-free line written with its terminator in front of more text reads back as that line, then the lines of the rest |
| `FileStore.LinesOfJoin` | main.cpp:382 | newline-free lines written with terminators are read back as exactly those lines |
| `FileStore.JoinOfLines` | main.cpp:382 | a terminated text is exactly its lines written back with terminators |
| `UserManager.DoSignup` | main.cpp:209-267 | the operation on a `Directory` returns the status and leaves exactly the directory that `Signup` gives from the old directory |
| `UserManager.CheckId` | main.cpp:269-294 | the lookup reads the directory, changes nothing, and returns exactly `Login` on the current directory |
| `UserManager.SignupRejectionsKeepStore` | main.cpp:218-248 | an id under 3 characters is rejected; then an existing sanitised file is rejected whatever the password; then a password under 4 characters is rejected; every rejection leaves the directory unchanged; success happens iff every check passes and the file opens |
| `UserManager.SignupEffect` | main.cpp:255-260 | a successful signup adds exactly one new file, the sanitised id's, whose only line is the password; every existing file is unchanged |
| `UserManager.SignupThenLogin` | main.cpp:277-293 | after a successful signup the chosen password logs in, every other password fails, and logins for every other key give the same answer as before |
| `UserManager.LoginNeedsFile` | main.cpp:277-287 | a login succeeds only when the sanitised id's file exists and can be opened |
| `UserManager.SecondSignupRejected` | main.cpp:226-233 | once an id has signed up, every id that agrees with it up to punctuation is rejected as taken, whatever its password |
| `UserManager.LoginFailuresAlike` | main.cpp:277-293 | a wrong password for an existing user gives the same `false` as an unknown user |
| `UserManager.SignupLoginScenario` | main.cpp:209-294 | in an empty directory "bob123"/"pass1" signs up; then "pass1" logs in, "wrong" fails, and "nosuchuser" fails |
| `UserManager.BobSignsUp` | main.cpp:218-294 | "bob123" with "pass1" passes every signup check in an empty directory, and "nosuchuser" then fails to log in because its file does not exist |
| `UserManager.CollidingSignupScenario` | main.cpp:226-233 | after "a-b" signs up, "a_b" is rejected as taken |
| `Jobs.PostAJob` | main.cpp:298-356 | the operation on a `Directory` returns the status and leaves exactly the directory that `Post` gives from the old directory |
| `Jobs.BrowseJobs` | main.cpp:359-395 | the line-by-line read loop returns exactly `Browse` of the directory |
| `Jobs.BlockIsJoin` | main.cpp:337-345 | the text a post writes is the ten job lines, each followed by `"\n"`; the last statement's `"\n\n"` ends the separator line and an empty line |
| `Jobs.BlockReadsAsTenLines` | main.cpp:337-345 | with newline-free fields, a posted block reads back as exactly ten lines (separator, seven labelled fields, separator, empty line) and ends in `'\n'` |
| `Jobs.PostEffect` | main.cpp:334-351 | a post succeeds iff the file opens, and a failed open changes nothing; on success only the profession's file changes, and it is created if absent; the old text stays a prefix; for a terminated file, the lines read back are the old lines plus the ten job lines |
| `Jobs.BrowseCases` | main.cpp:376-391 | browsing finds a listing iff the profession's file exists and opens; an absent file gives `NotFound`; an existing empty file gives `Found([])` |
| `Jobs.PostThenBrowse` | main.cpp:369-382 | after a post, browsing under any spelling that agrees up to case and punctuation returns the old lines followed by the new ten lines |
| `Jobs.TwoPostsOldestFirst` | main.cpp:334-346 | two posts to one file are browsed oldest first, after whatever was there before |
| `Jobs.NurseSpellings` | main.cpp:369-374 | "Nurse" and "nurse" each agree with "NURSE" up to letter case, and "NURSE" names `nurse.txt` |
| `Jobs.NurseScenario` | main.cpp:327-391 | posts as "Nurse" and then "nurse", browsed as "NURSE", show both blocks in posting order |
| `Jobs.ChefScenario` | main.cpp:338-343 | a "Chef" post by "Ana" with fees "500", browsed as "chef", shows the lines "Name: Ana" and "Fees: 500" |
| `SharedDirectory.SignupKeepsFilesTerminated` | main.cpp:255-260 | signup keeps every file empty or ending in `'\n'` |
| `SharedDirectory.PostKeepsFilesTerminated` | main.cpp:334-346 | posting keeps every file empty or ending in `'\n'` |
| `SharedDirectory.PostKeepsLogins` | main.cpp:334 | a post never changes a login answer for an id whose file already holds a complete first line, even when the profession names that file |
| `SharedDirectory.ListingFileAnswersLogin` | main.cpp:327-334 | a post that creates the file of an id makes that id taken, and lets it log in with the separator as password |
| `SharedDirectory.CredentialFileListedByBrowse` | main.cpp:369-385 | browsing a profession whose file is a fresh credential file lists the password as its single line |
| `SharedDirectory.NurseLoginScenario` | main.cpp:327-334 | after a job is posted as "Nurse", "nurse" logs in with the separator line |
| `SharedDirectory.ChefBrowseScenario` | main.cpp:369-385 | after "chef" signs up with "pass1", browsing "Chef" lists `["pass1"]` |

## Left out

- Filenames are compared exactly, as on a case-sensitive file system. On a case-insensitive one (the program also builds for Windows, and macOS is case-insensitive by default) `Bob.txt` and `bob.txt` are one file: ids that differ only in letter case then share one credential file, the second is rejected as taken at signup, and either logs in with the first one's password. The model keeps them apart.
- Console presentation is not part of this model. That covers the menu classes, the `main` navigation loop, screen clearing, centred printing, prompts and "Press ENTER" pauses.
- The retry loops of `signup` are not modelled. Each call models one pass with already-collected strings; a rejection is returned instead of a new prompt.
- The `cin >> ws` in `postAJob` and `browseJobs` is not modelled. It skips leading whitespace of the profession; the model takes the profession as already read.
- Real `stat`, `ifstream` and `ofstream` behaviour is not modelled. Open failure is a boolean parameter, and a failure leaves the directory unchanged.
- A write that fails half-way through is not modelled: a file that opens is written completely.
- `stat` also succeeds on a directory of that name. The model only has files.
- Characters are read in the C locale: only ASCII letters and digits are alphanumeric, and only `A`..`Z` are lowered. A negative `char` passed to `isalnum`/`tolower` is undefined behaviour in C++; the model treats every non-ASCII character as non-alphanumeric.
- Text is modelled as sequences of Dafny characters, one character standing for one ASCII byte of a C++ `std::string`. Lengths and keys agree with the program only on ASCII input. A non-ASCII character occupies several bytes in the program: the length checks on ids and passwords (main.cpp:218, main.cpp:243) count those bytes, and the sanitising loop (main.cpp:198-201) rewrites each byte. The model counts and rewrites one character instead.
- The race between the existence check and the write in `signup` is concurrency and is not modelled.
- `std::getline` never returns a `'\n'`. Lemmas that read text back therefore require newline-free passwords and fields. The operations themselves accept any string.
