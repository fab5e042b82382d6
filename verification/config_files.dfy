/** Reading the driver's small configuration files: option lists with
    comments (COMPOPTS, foo.execopts, EXECENV, ...), single-integer files
    (TIMEOUT, foo.timeout, foo.killtimeout, ...), the performance-mode file
    names, and the exit code of a fatal configuration error.

    A file is given by its lines as Python's `readlines()` returns them (each
    line may still carry its newline).
 */
module ConfigFiles {
  import opened Wrappers
  import opened Strings
  import opened Decimal
  import opened Discovery

  /** A line that, once right-stripped, starts a comment. With
      `ignoreLeadingSpace` (the default) indentation before the `#` does not
      matter; without it only a `#` in the first column counts. */
  predicate IsComment(line: string, ignoreLeadingSpace: bool)
    requires !IsBlank(line)
  {
    if ignoreLeadingSpace then LStrip(line)[0] == '#' else line[0] == '#'
  }

  /** The lines `ReadFileWithComments` keeps: not blank and not a comment. */
  predicate Kept(line: string, ignoreLeadingSpace: bool) {
    !IsBlank(line) && !IsComment(RStrip(line), ignoreLeadingSpace)
  }

  /** `ReadFileWithComments`: the right-stripped lines that are neither blank
      nor comments, in file order. Shell variables are not expanded (the
      expansion reads the process environment and is the identity here). */
  function ReadFileWithComments(lines: seq<string>, ignoreLeadingSpace: bool): (r: seq<string>)
    ensures |r| <= |lines|
    ensures forall k :: 0 <= k < |r| ==> !IsBlank(r[k]) && RStrip(r[k]) == r[k]
    ensures forall k :: 0 <= k < |r| ==> Kept(r[k], ignoreLeadingSpace)
    ensures forall k :: 0 <= k < |r| ==> ReadFrom(r[k], lines)
  {
    if |lines| == 0 then []
    else
      var rest := ReadFileWithComments(lines[1..], ignoreLeadingSpace);
      var line := RStrip(lines[0]);
      RStripIdempotent(lines[0]);
      OriginsShift(lines, rest);
      if Kept(lines[0], ignoreLeadingSpace) then
        assert ReadFrom(line, lines);
        [line] + rest
      else rest
  }

  /** `x` is one of the file's lines, right-stripped. */
  predicate ReadFrom(x: string, lines: seq<string>) {
    exists i :: 0 <= i < |lines| && x == RStrip(lines[i])
  }

  /** Lines read from the tail of a file are read from the file. */
  lemma OriginsShift(lines: seq<string>, rest: seq<string>)
    requires |lines| > 0
    requires forall k :: 0 <= k < |rest| ==> ReadFrom(rest[k], lines[1..])
    ensures forall k :: 0 <= k < |rest| ==> ReadFrom(rest[k], lines)
  {
    forall k | 0 <= k < |rest|
      ensures ReadFrom(rest[k], lines)
    {
      var i :| 0 <= i < |lines[1..]| && rest[k] == RStrip(lines[1..][i]);
      assert lines[1..][i] == lines[i + 1];
    }
  }

  /** Reading two pieces of a file separately and concatenating the results is
      reading the whole file: the filter looks at each line on its own. */
  lemma {:induction false} ReadFileWithCommentsAppend(a: seq<string>, b: seq<string>, ignoreLeadingSpace: bool)
    ensures ReadFileWithComments(a + b, ignoreLeadingSpace)
         == ReadFileWithComments(a, ignoreLeadingSpace) + ReadFileWithComments(b, ignoreLeadingSpace)
  {
    if |a| > 0 {
      assert (a + b)[1..] == a[1..] + b;
      ReadFileWithCommentsAppend(a[1..], b, ignoreLeadingSpace);
    } else {
      assert a + b == b;
    }
  }

  /** One line is kept, right-stripped, exactly when it is neither blank nor a
      comment. Together with `ReadFileWithCommentsAppend` this pins the result
      down completely. */
  lemma {:induction false} ReadFileWithCommentsSingle(line: string, ignoreLeadingSpace: bool)
    ensures Kept(line, ignoreLeadingSpace) ==> ReadFileWithComments([line], ignoreLeadingSpace) == [RStrip(line)]
    ensures !Kept(line, ignoreLeadingSpace) ==> ReadFileWithComments([line], ignoreLeadingSpace) == []
  {
    assert [line][1..] == [];
  }

  /** Reading an already filtered list again changes nothing. */
  lemma {:induction false} ReadFileWithCommentsIdempotent(lines: seq<string>, ignoreLeadingSpace: bool)
    ensures var r := ReadFileWithComments(lines, ignoreLeadingSpace);
            ReadFileWithComments(r, ignoreLeadingSpace) == r
  {
    if |lines| > 0 {
      ReadFileWithCommentsIdempotent(lines[1..], ignoreLeadingSpace);
      var rest := ReadFileWithComments(lines[1..], ignoreLeadingSpace);
      if Kept(lines[0], ignoreLeadingSpace) {
        var line := RStrip(lines[0]);
        ReadFileWithCommentsAppend([line], rest, ignoreLeadingSpace);
        ReadFileWithCommentsSingle(line, ignoreLeadingSpace);
      }
    }
  }

  /** The loop of `ReadIntegerValue` over the kept lines: a line starting
      with `#` is passed over, the first other line decides. */
  function FirstInteger(kept: seq<string>): Option<int>
    requires forall k :: 0 <= k < |kept| ==> |kept[k]| > 0
  {
    if |kept| == 0 then None
    else if kept[0][0] == '#' then FirstInteger(kept[1..])
    else ParseInt(kept[0])
  }

  /** A kept line (with the indentation-insensitive comment rule) does not
      start with `#`, so the comment test inside `ReadIntegerValue`'s loop
      never fires. */
  lemma KeptLineHasNoHash(line: string)
    requires Kept(line, true) && RStrip(line) == line
    ensures |line| > 0 && line[0] != '#'
  {
    if |line| > 0 && !IsSpace(line[0]) {
      assert LStrip(line) == line;
    }
  }

  /** `ReadIntegerValue`: the integer on the first kept line of the file
      (with the default, indentation-insensitive comment rule); a fatal error
      when that line is not an integer or no line is kept. */
  function ReadIntegerValue(f: string, localdir: string, lines: seq<string>): (r: Result<int>)
    ensures var kept := ReadFileWithComments(lines, true);
            r.Ok? <==> |kept| > 0 && ParseInt(kept[0]).Some?
    ensures var kept := ReadFileWithComments(lines, true);
            r.Ok? ==> r.value == ParseInt(kept[0]).value
    ensures r.Err? ==> r.failure == Fatal("Invalid integer value in " + f + " (" + localdir + ")")
  {
    var kept := ReadFileWithComments(lines, true);
    if |kept| > 0 then
      KeptLineHasNoHash(kept[0]);
      match FirstInteger(kept)
      case Some(v) => Ok(v)
      case None => Err(Fatal("Invalid integer value in " + f + " (" + localdir + ")"))
    else
      Err(Fatal("Invalid integer value in " + f + " (" + localdir + ")"))
  }

  lemma {:induction false} NumeralEnds(i: int)
    ensures var n := IntToString(i);
            |n| > 0 && (n[0] == '-' || IsDigit(n[0])) && IsDigit(n[|n| - 1])
  {
    var n := IntToString(i);
    var d := NatToString(if i < 0 then -i else i);
    assert n[|n| - 1] == d[|d| - 1];
  }

  /** A line whose text has no whitespace at either end and does not start
      with `#` is kept, and its newline is the only thing stripped. */
  lemma {:induction false} TextLineKept(n: string)
    requires |n| > 0 && !IsSpace(n[0]) && !IsSpace(n[|n| - 1]) && n[0] != '#'
    ensures Kept(n + "\n", true)
    ensures RStrip(n + "\n") == n
  {
    var line := n + "\n";
    assert line[..|line| - 1] == n;
    assert RStrip(n) == n;
    assert LStrip(n) == n;
    assert line[0] == n[0];
  }

  /** The line holding a numeral is kept and reads back as the numeral. */
  lemma {:induction false} NumeralLine(i: int)
    ensures Kept(IntToString(i) + "\n", true)
    ensures RStrip(IntToString(i) + "\n") == IntToString(i)
  {
    NumeralEnds(i);
    TextLineKept(IntToString(i));
  }

  /** A file holding a numeral, after any number of blank or comment lines,
      reads back as that number, whatever follows it. */
  lemma {:induction false} ReadIntegerValueOfNumeral(f: string, localdir: string, before: seq<string>, i: int, after: seq<string>)
    requires forall k :: 0 <= k < |before| ==> !Kept(before[k], true)
    ensures ReadIntegerValue(f, localdir, before + [IntToString(i) + "\n"] + after) == Ok(i)
  {
    var line := IntToString(i) + "\n";
    NumeralLine(i);
    NoneKept(before);
    ReadFileWithCommentsAppend(before, [line] + after, true);
    ReadFileWithCommentsAppend([line], after, true);
    ReadFileWithCommentsSingle(line, true);
    assert before + [line] + after == before + ([line] + after);
    ParseIntToString(i);
  }

  lemma {:induction false} NoneKept(lines: seq<string>)
    requires forall k :: 0 <= k < |lines| ==> !Kept(lines[k], true)
    ensures ReadFileWithComments(lines, true) == []
  {
    if |lines| > 0 {
      NoneKept(lines[1..]);
    }
  }

  function SumOrds(s: string): nat
  {
    if |s| == 0 then 0 else s[0] as nat + SumOrds(s[1..])
  }

  /** `Fatal()`'s exit code: the sum of the character codes of "CHAPEL",
      modulo 256. */
  function FatalExitCode(): (code: nat)
    ensures code == 173
  {
    var s := "CHAPEL";
    assert SumOrds(s[5..]) == 76;
    assert SumOrds(s[4..]) == 69 + 76;
    assert SumOrds(s[3..]) == 80 + 69 + 76;
    assert SumOrds(s[2..]) == 65 + 80 + 69 + 76;
    assert SumOrds(s[1..]) == 72 + 65 + 80 + 69 + 76;
    SumOrds(s) % 256
  }

  /** `PerfSfx`: a per-test file suffix, with the performance label in front
      of the kind (`.perfkeys`) or nothing in normal mode (`.keys`). */
  function PerfSfx(perflabel: string, kind: string): (r: string)
    ensures |r| == 1 + |perflabel| + |kind|
    ensures r[0] == '.'
    ensures r[1..1 + |perflabel|] == perflabel
    ensures r[1 + |perflabel|..] == kind
  {
    "." + perflabel + kind
  }

  /** `PerfDirFile`: a directory-wide file, upper-cased (`./PERFCOMPOPTS`). */
  function PerfDirFile(perflabel: string, kind: string): (r: string)
    ensures StartsWith(r, "./")
    ensures |r| == 2 + |perflabel| + |kind|
    ensures r[2..2 + |perflabel|] == Upper(perflabel)
    ensures r[2 + |perflabel|..] == Upper(kind)
    ensures forall i :: 2 <= i < |r| ==> !('a' <= r[i] <= 'z')
  {
    "./" + Upper(perflabel) + Upper(kind)
  }

  /** `PerfTFile`: the file of one test with a given performance suffix. */
  function PerfTFile(testFilename: string, perflabel: string, kind: string): (r: string)
    ensures StartsWith(r, testFilename)
    ensures r[|testFilename|..] == PerfSfx(perflabel, kind)
  {
    testFilename + "." + perflabel + kind
  }

  /** A per-test performance file is seen by the scan as one of the test's
      own files with the performance suffix: `os.path.splitext` cuts
      `foo.perfkeys` into `foo` and `.perfkeys`, which is how the scan's
      `suffix == PerfSfx(...)` tests find it. */
  lemma PerfTFileSplitExt(testFilename: string, perflabel: string, kind: string)
    requires |testFilename| > 0 && testFilename[0] != '.'
    requires '.' !in perflabel + kind
    ensures SplitExt(PerfTFile(testFilename, perflabel, kind)) == (testFilename, PerfSfx(perflabel, kind))
  {
    assert PerfTFile(testFilename, perflabel, kind) == testFilename + "." + (perflabel + kind);
    assert PerfSfx(perflabel, kind) == "." + (perflabel + kind);
    SplitExtOfSettingsFile(testFilename, perflabel + kind);
  }

  /** Different kinds give different suffixes and different file names, so
      one performance file never serves two settings. */
  lemma PerfNamesInjective(testFilename: string, perflabel: string, kind: string, kind': string)
    requires kind != kind'
    ensures PerfSfx(perflabel, kind) != PerfSfx(perflabel, kind')
    ensures PerfTFile(testFilename, perflabel, kind) != PerfTFile(testFilename, perflabel, kind')
  {
    var a, b := PerfSfx(perflabel, kind), PerfSfx(perflabel, kind');
    assert a[1 + |perflabel|..] != b[1 + |perflabel|..];
    var x, y := PerfTFile(testFilename, perflabel, kind), PerfTFile(testFilename, perflabel, kind');
    assert x[|testFilename|..] != y[|testFilename|..];
  }

  /** The directory-wide name is the upper-cased per-test suffix, less its
      dot, behind `./`: `./PERFCOMPOPTS` goes with `.perfcompopts`. */
  lemma PerfDirFileOfSfx(perflabel: string, kind: string)
    ensures PerfDirFile(perflabel, kind) == "./" + Upper(PerfSfx(perflabel, kind)[1..])
  {
    var s := PerfSfx(perflabel, kind);
    assert s[1..] == perflabel + kind;
    UpperAppend(perflabel, kind);
  }

  lemma UpperAppend(a: string, b: string)
    ensures Upper(a + b) == Upper(a) + Upper(b)
  {
    var l, r := Upper(a + b), Upper(a) + Upper(b);
    assert |l| == |r|;
    forall i | 0 <= i < |l| ensures l[i] == r[i] {
      if i < |a| {
        assert (a + b)[i] == a[i];
      } else {
        assert (a + b)[i] == b[i - |a|];
      }
    }
  }

  lemma UpperIdempotent(s: string)
    ensures Upper(Upper(s)) == Upper(s)
  {
  }

  /** The directory-wide name does not depend on how the kind is cased:
      `PerfDirFile('COMPOPTS')` and `PerfDirFile('compopts')` agree. */
  lemma PerfDirFileCaseInsensitive(perflabel: string, kind: string)
    ensures PerfDirFile(perflabel, Upper(kind)) == PerfDirFile(perflabel, kind)
  {
    UpperIdempotent(kind);
  }
}
