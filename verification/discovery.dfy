/** Which directory entries are tests, and the names derived from a test's
    file name. The driver matches with Python regular expressions anchored by
    `re.match` at the start and `$` at the end; Python's `$` also matches just
    before a final newline, and `.` never matches a newline.
 */
module Discovery {
  import opened Strings

  /** The part of a name that a pattern ending in `$` must match: the whole
      name, or the name without one final newline. */
  function MatchBody(f: string): (b: string)
    ensures b == f || b + "\n" == f
  {
    if EndsWith(f, "\n") then f[..|f| - 1] else f
  }

  /** `stem + ext` where the stem is one or more characters, none a newline
      (the regular expression `^.+\.ext$`). */
  predicate HasStemWith(body: string, ext: string) {
    |body| > |ext| && EndsWith(body, ext) && '\n' !in body[..|body| - |ext|]
  }

  /** `IsChplTest`: a `.chpl` source or a `.test.c` C test. Every C test is
      one, and every test name ends, before a final newline, in one of the
      two extensions after a non-empty stem. */
  predicate IsChplTest(f: string)
    ensures IsCTest(f) ==> IsChplTest(f)
    ensures IsChplTest(f) ==> |MatchBody(f)| > 5
    ensures IsChplTest(f) ==> EndsWith(MatchBody(f), ".chpl") || EndsWith(MatchBody(f), ".test.c")
  {
    var b := MatchBody(f);
    HasStemWith(b, ".chpl") || HasStemWith(b, ".test.c")
  }

  /** A C test (`^.+\.test\.c$`), which is compiled with the C compiler. */
  predicate IsCTest(f: string) {
    HasStemWith(MatchBody(f), ".test.c")
  }

  /** The test's base name (`test_filename`): the source name without its
      `.chpl` or `.test.c` extension. */
  function TestFilename(f: string): (stem: string)
    requires IsChplTest(f)
    ensures MatchBody(f) == stem + ".chpl" || MatchBody(f) == stem + ".test.c"
    ensures IsCTest(f) <==> MatchBody(f) == stem + ".test.c"
    ensures |stem| > 0 && '\n' !in stem
  {
    var b := MatchBody(f);
    if EndsWith(b, ".test.c") then
      assert b == b[..|b| - 7] + ".test.c";
      b[..|b| - 7]
    else
      assert b == b[..|b| - 5] + ".chpl";
      assert !EndsWith(b, ".test.c");
      b[..|b| - 5]
  }

  /** Every stem without newlines, with either extension, names a test, and
      the base name recovered from it is the stem. */
  lemma {:induction false} TestFilenameRoundTrip(stem: string, cTest: bool)
    requires |stem| > 0 && '\n' !in stem
    ensures var f := stem + (if cTest then ".test.c" else ".chpl");
            IsChplTest(f) && TestFilename(f) == stem && (IsCTest(f) <==> cTest)
  {
    var f := stem + (if cTest then ".test.c" else ".chpl");
    assert f[|f| - 1] == (if cTest then 'c' else 'l');
    assert !EndsWith(f, "\n");
    assert MatchBody(f) == f;
    assert f[..|stem|] == stem;
    if !cTest {
      assert f[|f| - 1] == 'l';
      assert !EndsWith(f, ".test.c");
    }
  }

  /** `os.path.splitext` for a bare file name: the extension starts at the
      last dot, unless only dots precede that dot (`.bashrc` has no
      extension). */
  function SplitExt(f: string): (parts: (string, string))
    ensures parts.0 + parts.1 == f
    ensures parts.1 == "" || (parts.1[0] == '.' && '.' !in parts.1[1..])
  {
    var i := LastDot(f, |f|);
    if i < 0 || AllDots(f[..i]) then (f, "")
    else
      assert f[..i] + f[i..] == f;
      assert f[i..][1..] == f[i + 1..];
      (f[..i], f[i..])
  }

  predicate AllDots(s: string) {
    forall k :: 0 <= k < |s| ==> s[k] == '.'
  }

  /** The index of the last dot among the first `n` characters, or -1. */
  function LastDot(f: string, n: nat): (i: int)
    requires n <= |f|
    ensures -1 <= i < n
    ensures i >= 0 ==> f[i] == '.'
    ensures forall k :: i < k < n ==> f[k] != '.'
  {
    if n == 0 then -1
    else if f[n - 1] == '.' then n - 1
    else LastDot(f, n - 1)
  }

  /** A per-test file `stem.kind` (a kind without dots) splits into the test's
      base name and `.kind`; this is how the driver recognises the settings
      files of a test. */
  lemma SplitExtOfSettingsFile(stem: string, kind: string)
    requires |stem| > 0 && stem[0] != '.'
    requires '.' !in kind
    ensures SplitExt(stem + "." + kind) == (stem, "." + kind)
  {
    var f := stem + "." + kind;
    assert f[|stem|] == '.';
    assert f[..|stem|] == stem;
    assert f[|stem|..] == "." + kind;
    forall k | |stem| < k < |f|
      ensures f[k] != '.'
    {
      assert f[k] == kind[k - |stem| - 1];
    }
    assert !AllDots(f[..|stem|]) by {
      assert f[..|stem|][0] == stem[0];
    }
  }
}
