/** The working directory as the program sees it: a table from filename to the
    text of that file. A file exists (stat succeeds) exactly when its name is a
    key of the table. Reading is line-oriented with std::getline semantics. */
module FileStore {

  type FileMap = map<string, string>

  /** The working directory, updated in place by the operations that write files. */
  class Directory {
    var files: FileMap

    constructor (initial: FileMap)
      ensures files == initial
    {
      files := initial;
    }
  }

  predicate NoNewline(s: string) {
    '\n' !in s
  }

  /** A file whose text is empty or ends with a line terminator. */
  predicate Terminated(s: string) {
    s == [] || s[|s| - 1] == '\n'
  }

  /** Length of the first line of s: the index of the first '\n', or |s| if none. */
  function LineEnd(s: string): (k: nat)
    ensures k <= |s|
  {
    if s == [] || s[0] == '\n' then 0 else 1 + LineEnd(s[1..])
  }

  /** The first line stops at a '\n' (or at the end of the text) and holds none. */
  lemma {:induction false} LineEndFacts(s: string)
    ensures LineEnd(s) < |s| ==> s[LineEnd(s)] == '\n'
    ensures NoNewline(s[..LineEnd(s)])
  {
    if s != [] && s[0] != '\n' {
      LineEndFacts(s[1..]);
      assert s[..LineEnd(s)] == [s[0]] + s[1..][..LineEnd(s[1..])];
    }
  }

  /** LineEnd is determined by the position of the first '\n'. */
  lemma {:induction false} LineEndUnique(s: string, k: nat)
    requires k <= |s|
    requires k < |s| ==> s[k] == '\n'
    requires NoNewline(s[..k])
    ensures LineEnd(s) == k
  {
    if k > 0 {
      assert s[0] in s[..k];
      assert s[1..][..k - 1] == s[..k][1..];
      LineEndUnique(s[1..], k - 1);
    }
  }

  /** What one std::getline extracts from the start of a file: the text before
      the first '\n' (all of it if there is none, "" for an empty file). */
  function FirstLine(s: string): (r: string)
    ensures NoNewline(r)
    ensures r <= s
    ensures |r| < |s| ==> s[|r|] == '\n'
  {
    LineEndFacts(s);
    s[..LineEnd(s)]
  }

  /** Every line a `while (getline(fin, line))` loop yields, in file order: a
      final segment without '\n' still counts as a line, an empty final segment
      does not. */
  function Lines(s: string): seq<string>
    decreases |s|
  {
    if s == [] then []
    else
      var k := LineEnd(s);
      if k == |s| then [s] else [s[..k]] + Lines(s[k + 1..])
  }

  /** The first step of reading lines: the first line, then the lines after
      its terminator, if any. */
  lemma {:induction false} LinesFirst(s: string)
    requires s != []
    ensures LineEnd(s) < |s| ==> Lines(s) == [s[..LineEnd(s)]] + Lines(s[LineEnd(s) + 1..])
    ensures LineEnd(s) == |s| ==> Lines(s) == [s[..LineEnd(s)]]
  {
    if LineEnd(s) == |s| {
      assert s[..|s|] == s;
    }
  }

  predicate AllNoNewline(lines: seq<string>) {
    forall i :: 0 <= i < |lines| ==> NoNewline(lines[i])
  }

  /** No line the read loop yields contains a terminator. */
  lemma {:induction false} LinesNoNewline(s: string)
    ensures AllNoNewline(Lines(s))
    decreases |s|
  {
    if s != [] {
      var k := LineEnd(s);
      LineEndFacts(s);
      LinesFirst(s);
      if k < |s| {
        LinesNoNewline(s[k + 1..]);
      } else {
        assert s[..k] == s;
      }
    }
  }

  /** One turn of a read loop that stands at position pos of a text, when a
      terminator follows: it yields the line starting there and continues
      after that terminator. */
  lemma {:induction false} LinesFrom(text: string, pos: nat)
    requires pos < |text|
    requires pos + LineEnd(text[pos..]) < |text|
    ensures var k := LineEnd(text[pos..]);
      Lines(text[pos..]) == [text[pos..pos + k]] + Lines(text[pos + k + 1..])
  {
    var k := LineEnd(text[pos..]);
    LinesFirst(text[pos..]);
    SuffixSlices(text, pos, k);
  }

  /** Slicing the rest of a text around position k of the rest is slicing the
      text around position pos + k. A proof aid for LinesFrom. */
  lemma SuffixSlices(text: string, pos: nat, k: nat)
    requires pos + k < |text|
    ensures text[pos..][..k] == text[pos..pos + k]
    ensures text[pos..][k + 1..] == text[pos + k + 1..]
  {
  }

  /** The last turn of a read loop: no terminator follows position pos, and
      the rest of the text is one final line. */
  lemma {:induction false} LinesFromLast(text: string, pos: nat)
    requires pos < |text|
    requires pos + LineEnd(text[pos..]) == |text|
    ensures Lines(text[pos..]) == [text[pos..]]
  {
    var rest := text[pos..];
    LinesFirst(rest);
    assert rest[..LineEnd(rest)] == rest;
  }

  /** One std::getline from position pos of a text that is not yet exhausted:
      the line starting there, and the position after its terminator. */
  method ReadLine(text: string, pos: nat) returns (line: string, next: nat)
    requires pos < |text|
    ensures pos < next <= |text|
    ensures NoNewline(line)
    ensures Lines(text[pos..]) == [line] + Lines(text[next..])
  {
    var k := LineEnd(text[pos..]);
    LineEndFacts(text[pos..]);
    assert text[pos..][..k] == text[pos..pos + k];
    line := text[pos..pos + k];
    if pos + k < |text| {
      LinesFrom(text, pos);
      next := pos + k + 1;
    } else {
      LinesFromLast(text, pos);
      assert text[pos..] == line;
      next := |text|;
      assert Lines(text[next..]) == [] by { assert text[next..] == []; }
      assert [line] + [] == [line];
    }
  }

  /** The text written by emitting each line followed by "\n". */
  function Join(lines: seq<string>): (s: string)
    ensures Terminated(s)
    ensures |s| >= |lines|
  {
    if lines == [] then [] else lines[0] + "\n" + Join(lines[1..])
  }

  /** Writing one more line extends the text by that line and its terminator. */
  lemma {:induction false} JoinSnoc(lines: seq<string>, line: string)
    ensures Join(lines + [line]) == Join(lines) + (line + "\n")
  {
    if lines == [] {
      assert [line][1..] == [];
      assert Join([line]) == line + "\n" + Join([]);
    } else {
      assert (lines + [line])[1..] == lines[1..] + [line];
      JoinSnoc(lines[1..], line);
    }
  }

  /** A text that holds a terminator has its first line end before its end. */
  lemma {:induction false} LineEndBeforeEnd(s: string)
    requires '\n' in s
    ensures LineEnd(s) < |s|
  {
    LineEndFacts(s);
    assert s[..|s|] == s;
  }

  /** The first line of a text ends where it did before more text was appended
      after its terminator. */
  lemma {:induction false} LineEndOfAppend(a: string, b: string)
    requires '\n' in a
    ensures LineEnd(a + b) == LineEnd(a) < |a|
  {
    var k := LineEnd(a);
    LineEndBeforeEnd(a);
    LineEndFacts(a);
    assert (a + b)[..k] == a[..k];
    LineEndUnique(a + b, k);
  }

  /** The first line of a text is not disturbed by anything appended after
      its terminator. */
  lemma {:induction false} FirstLineOfAppend(a: string, b: string)
    requires '\n' in a
    ensures FirstLine(a + b) == FirstLine(a)
  {
    LineEndOfAppend(a, b);
    assert (a + b)[..LineEnd(a)] == a[..LineEnd(a)];
  }

  /** A line written with its terminator is read back as that line. */
  lemma {:induction false} FirstLineOfWritten(line: string, rest: string)
    requires NoNewline(line)
    ensures FirstLine(line + "\n" + rest) == line
  {
    var s := line + "\n" + rest;
    assert s[..|line|] == line;
    LineEndUnique(s, |line|);
  }

  /** The text after the first terminator of a terminated text is terminated. */
  lemma {:induction false} RestTerminated(s: string, k: nat)
    requires Terminated(s) && k < |s|
    ensures Terminated(s[k + 1..])
  {
    var rest := s[k + 1..];
    if rest != [] {
      assert rest[|rest| - 1] == s[|s| - 1];
    }
  }

  /** Associativity of concatenation, stated once so that proofs over lines
      can cite it instead of rediscovering it; it models nothing of its own. */
  lemma ConcatAssoc<T>(x: seq<T>, y: seq<T>, z: seq<T>)
    ensures (x + y) + z == x + (y + z)
  {
  }

  /** Reading a text that holds a terminator, with more text appended: the
      first line is the original first line, and reading continues into the
      appended text. */
  lemma {:induction false} LinesAppendStep(a: string, b: string)
    requires '\n' in a
    ensures LineEnd(a) < |a|
    ensures Lines(a + b) == [a[..LineEnd(a)]] + Lines(a[LineEnd(a) + 1..] + b)
  {
    var k := LineEnd(a);
    var ab := a + b;
    LineEndOfAppend(a, b);
    LinesFirst(ab);
    assert ab[k + 1..] == a[k + 1..] + b;
    assert ab[..k] == a[..k];
  }

  /** Lines of text written one after another: a terminated text keeps its
      lines as a prefix when more text is appended. */
  lemma {:induction false} LinesAppend(a: string, b: string)
    requires Terminated(a)
    ensures Lines(a + b) == Lines(a) + Lines(b)
    decreases |a|
  {
    if a == [] {
      assert a + b == b;
    } else {
      assert '\n' in a by { assert a[|a| - 1] == '\n'; }
      LinesAppendStep(a, b);
      var k := LineEnd(a);
      var rest := a[k + 1..];
      LinesFirst(a);
      RestTerminated(a, k);
      LinesAppend(rest, b);
      ConcatAssoc([a[..k]], Lines(rest), Lines(b));
    }
  }

  /** A newline-free line written with its terminator, followed by more text,
      reads back as that line and then the lines of the rest. */
  lemma {:induction false} LinesOfWritten(line: string, rest: string)
    requires NoNewline(line)
    ensures Lines(line + "\n" + rest) == [line] + Lines(rest)
  {
    var s := line + "\n" + rest;
    assert s[..|line|] == line;
    LineEndUnique(s, |line|);
    LinesFirst(s);
    assert s[|line| + 1..] == rest;
  }

  /** Reading back newline-free lines written with terminators gives the lines. */
  lemma {:induction false} LinesOfJoin(lines: seq<string>)
    requires AllNoNewline(lines)
    ensures Lines(Join(lines)) == lines
  {
    if lines != [] {
      LinesOfWritten(lines[0], Join(lines[1..]));
      LinesOfJoin(lines[1..]);
      assert lines == [lines[0]] + lines[1..];
    }
  }

  /** Writing a line in front of others puts its text and terminator first. */
  lemma {:induction false} JoinCons(line: string, lines: seq<string>)
    ensures Join([line] + lines) == line + "\n" + Join(lines)
  {
    assert ([line] + lines)[1..] == lines;
  }

  /** A text splits around the terminator that ends its first line. A proof
      aid for JoinOfLines; it models nothing of its own. */
  lemma {:induction false} SplitAtTerminator(s: string, k: nat)
    requires k < |s| && s[k] == '\n'
    ensures s == s[..k] + "\n" + s[k + 1..]
  {
  }

  /** The converse round trip: a terminated text is the join of its lines. */
  lemma {:induction false} JoinOfLines(s: string)
    requires Terminated(s)
    ensures Join(Lines(s)) == s
    decreases |s|
  {
    if s != [] {
      assert '\n' in s by { assert s[|s| - 1] == '\n'; }
      LineEndBeforeEnd(s);
      LineEndFacts(s);
      var k := LineEnd(s);
      var rest := s[k + 1..];
      RestTerminated(s, k);
      JoinOfLines(rest);
      LinesFirst(s);
      JoinCons(s[..k], Lines(rest));
      SplitAtTerminator(s, k);
    }
  }
}
