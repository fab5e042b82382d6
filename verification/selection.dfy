/** Whether a test runs at all, and with which per-test settings: the scan
    over the files `foo.*` that sit next to a test `foo.chpl`, the decoding
    of `.skipif` and `.suppressif` script output, the labels of future and
    suppressed tests, the futures filter, and the cap on the number of
    performance trials.
 */
module Selection {
  import opened Wrappers
  import opened Strings
  import opened Decimal
  import opened ConfigFiles
  import opened Discovery

  /* ---------------------------------------------------------------------- */
  /* .skipif and .suppressif output                                          */
  /* ---------------------------------------------------------------------- */

  /** What the output of a `.skipif` or `.suppressif` script says: `False`
      says no, `True` says yes, and otherwise the output is read as an
      integer (surrounding whitespace allowed) that says yes when it is 1.
      `None` stands for the ValueError of output that is none of these. */
  function ConditionHolds(out: string): (r: Option<bool>)
    ensures r == Some(true) <==> Strip(out) == "True" || ParseInt(out) == Some(1)
    ensures r == Some(false) <==>
              Strip(out) == "False" || (Strip(out) != "True" && ParseInt(out).Some? && ParseInt(out).value != 1)
    ensures r.None? <==> Strip(out) != "True" && Strip(out) != "False" && ParseInt(out).None?
  {
    var t := Strip(out);
    if t == "False" then Some(false)
    else if t == "True" then Some(true)
    else
      match ParseInt(out)
      case None => None
      case Some(v) => Some(v == 1)
  }

  /** A `.skipif` script skips the test unless it clearly says no: output
      that cannot be read skips it too. */
  function SkipIfSkips(out: string): (skip: bool)
    ensures !skip <==> Strip(out) == "False" || (Strip(out) != "True" && ParseInt(out).Some? && ParseInt(out).value != 1)
  {
    ConditionHolds(out) != Some(false)
  }

  /** A `.suppressif` script suppresses the test only when it clearly says
      yes: output that cannot be read leaves the test as it is. */
  function SuppressIfSuppresses(out: string): (suppress: bool)
    ensures suppress <==> Strip(out) == "True" || (Strip(out) != "False" && ParseInt(out) == Some(1))
  {
    ConditionHolds(out) == Some(true)
  }

  /** Unreadable output fails closed for `.skipif` and open for
      `.suppressif`; whatever suppresses a test would also skip it. */
  lemma ConditionFailures(out: string)
    ensures ConditionHolds(out).None? ==> SkipIfSkips(out) && !SuppressIfSuppresses(out)
    ensures SuppressIfSuppresses(out) ==> SkipIfSkips(out)
    ensures SkipIfSkips(out) && !SuppressIfSuppresses(out) ==> ConditionHolds(out).None?
  {
  }

  /** A script printing a number says yes exactly when the number is 1. */
  lemma {:induction false} ConditionOfNumeral(i: int)
    ensures ConditionHolds(IntToString(i)) == Some(i == 1)
  {
    var n := IntToString(i);
    NumeralEnds(i);
    StripFixedPoint(n);
    FirstCharDiffers(n, "False");
    FirstCharDiffers(n, "True");
    ParseIntToString(i);
    ConditionOfInteger(n, i);
  }

  /** Output that is neither word is read as an integer. */
  lemma ConditionOfInteger(out: string, v: int)
    requires Strip(out) != "False" && Strip(out) != "True"
    requires ParseInt(out) == Some(v)
    ensures ConditionHolds(out) == Some(v == 1)
  {
  }

  lemma FirstCharDiffers(s: string, w: string)
    requires |s| > 0 && |w| > 0 && s[0] != w[0]
    ensures s != w
  {
  }

  /** The words `True` and `False`, on a line of their own, say yes and no. */
  lemma {:induction false} ConditionOfWord(yes: bool)
    ensures ConditionHolds(if yes then "True\n" else "False\n") == Some(yes)
  {
    var w := if yes then "True" else "False";
    TextLineKept(w);
    assert RStrip(w + "\n") == w;
    assert LStrip(w) == w;
    assert w + "\n" == (if yes then "True\n" else "False\n");
    assert Strip(w + "\n") == w;
  }

  /* ---------------------------------------------------------------------- */
  /* Labels of future and suppressed tests                                   */
  /* ---------------------------------------------------------------------- */

  /** A stripped line of a `.suppressif` file that gives the reason for
      suppressing: it starts with `#` but not with `#!`. */
  predicate IsReasonLine(t: string) {
    |t| > 0 && t[0] == '#' && !(|t| > 1 && t[1] == '!')
  }

  /** The index of the first reason line among stripped lines, if any. */
  function FirstReasonLine(stripped: seq<string>): (r: Option<nat>)
    ensures r.Some? ==> r.value < |stripped| && IsReasonLine(stripped[r.value])
    ensures r.Some? ==> forall j :: 0 <= j < r.value ==> !IsReasonLine(stripped[j])
    ensures r.None? ==> forall j :: 0 <= j < |stripped| ==> !IsReasonLine(stripped[j])
  {
    if |stripped| == 0 then None
    else if IsReasonLine(stripped[0]) then Some(0)
    else
      match FirstReasonLine(stripped[1..])
      case None => None
      case Some(k) =>
        assert forall j :: 1 <= j <= k + 1 ==> stripped[j] == stripped[1..][j - 1];
        Some(k + 1)
  }

  /** Every line of a file, stripped. */
  function StripLines(lines: seq<string>): (r: seq<string>)
    ensures |r| == |lines|
  {
    seq(|lines|, i requires 0 <= i < |lines| => Strip(lines[i]))
  }

  /** Every occurrence of one character is removed. */
  lemma {:induction false} RemoveAllChar(s: string, c: char)
    ensures c !in RemoveAll(s, [c])
    decreases |s|
  {
    if |s| > 0 {
      RemoveAllChar(s[1..], c);
      if !StartsWith(s, [c]) {
        assert s[0] != c by {
          assert s[..1] == [s[0]];
        }
      }
    }
  }

  /** The text of a reason line: stripped, without any `#`, stripped again. */
  function ReasonText(t: string): (r: string)
    ensures '#' !in r
    ensures Strip(r) == r
  {
    var body := RemoveAll(t, "#");
    RemoveAllChar(t, '#');
    StripKeepsAbsent(body, '#');
    StripIdempotent(body);
    Strip(body)
  }

  /** The reason a suppressed test is suppressed: the text of the first
      reason line; empty when there is none. */
  function SuppressReason(lines: seq<string>): (r: string)
    ensures '#' !in r
    ensures Strip(r) == r
  {
    var stripped := StripLines(lines);
    match FirstReasonLine(stripped)
    case None => ""
    case Some(k) => ReasonText(stripped[k])
  }

  /** A character that occurs nowhere does not occur as a one-character
      pattern either. */
  lemma CharNotContained(s: string, c: char)
    requires c !in s
    ensures !Contains(s, [c])
  {
    forall i | 0 <= i <= |s|
      ensures !StartsWith(s[i..], [c])
    {
      if i < |s| {
        assert s[i..][0] == s[i];
      }
    }
  }

  /** A comment line `#reason` is its own strip, is a reason line, and its
      text is the reason. */
  lemma {:induction false} ReasonTextOfComment(reason: string)
    requires '#' !in reason && Strip(reason) == reason
    requires |reason| == 0 || reason[0] != '!'
    ensures Strip("#" + reason) == "#" + reason
    ensures IsReasonLine("#" + reason)
    ensures ReasonText("#" + reason) == reason
  {
    var t := Strip(reason);
    assert t == [] || !IsSpace(t[|t| - 1]);
    CommentStrips(reason);
    HashRemoved(reason);
  }

  lemma CommentStrips(reason: string)
    requires reason == [] || !IsSpace(reason[|reason| - 1])
    ensures Strip("#" + reason) == "#" + reason
  {
    var line := "#" + reason;
    assert line[0] == '#' && !IsSpace('#');
    if reason != [] {
      assert line[|line| - 1] == reason[|reason| - 1];
    }
    StripFixedPoint(line);
  }

  /** Removing `#` from `#reason` leaves the reason. */
  lemma HashRemoved(reason: string)
    requires '#' !in reason
    ensures RemoveAll("#" + reason, "#") == reason
  {
    var line := "#" + reason;
    assert StartsWith(line, "#") && line[1..] == reason;
    CharNotContained(reason, '#');
    RemoveAllAbsent(reason, "#");
  }

  /** The reason comes from the first line that is a reason line once
      stripped. */
  lemma {:induction false} SuppressReasonAt(lines: seq<string>, k: nat)
    requires k < |lines| && IsReasonLine(Strip(lines[k]))
    requires forall j :: 0 <= j < k ==> !IsReasonLine(Strip(lines[j]))
    ensures SuppressReason(lines) == ReasonText(Strip(lines[k]))
  {
    var stripped := StripLines(lines);
    FirstReasonLineAt(stripped, k);
  }

  /** The first reason line is the one the search finds. */
  lemma FirstReasonLineAt(stripped: seq<string>, k: nat)
    requires k < |stripped| && IsReasonLine(stripped[k])
    requires forall j :: 0 <= j < k ==> !IsReasonLine(stripped[j])
    ensures FirstReasonLine(stripped) == Some(k)
  {
  }

  /** The reason written after `#` on the first reason line reads back as
      written, whatever precedes (lines that are not reason lines) and
      follows it. */
  lemma {:induction false} SuppressReasonOfComment(before: seq<string>, reason: string, after: seq<string>)
    requires forall j :: 0 <= j < |before| ==> !IsReasonLine(Strip(before[j]))
    requires '#' !in reason && Strip(reason) == reason
    requires |reason| == 0 || reason[0] != '!'
    ensures SuppressReason(before + ["#" + reason] + after) == reason
  {
    var lines := before + ["#" + reason] + after;
    ElementAfter(before, "#" + reason, after);
    ReasonTextOfComment(reason);
    SuppressReasonAt(lines, |before|);
  }

  lemma ElementAfter<T>(before: seq<T>, x: T, after: seq<T>)
    ensures |before| < |before + [x] + after| && (before + [x] + after)[|before|] == x
    ensures forall j :: 0 <= j < |before| ==> (before + [x] + after)[j] == before[j]
  {
  }

  /** `futuretest` of a suppressed test: `Suppress (reason) `. */
  function SuppressLabel(lines: seq<string>): (r: string)
    ensures |r| == 12 + |SuppressReason(lines)|
    ensures StartsWith(r, "Suppress (") && EndsWith(r, ") ")
    ensures r[10..|r| - 2] == SuppressReason(lines)
  {
    "Suppress (" + SuppressReason(lines) + ") "
  }

  /** `futuretest` of a future: `Future (first line of the .future file) `;
      an empty file gives an empty reason. */
  function FutureLabel(lines: seq<string>): (r: string)
    ensures |r| >= 10
    ensures StartsWith(r, "Future (") && EndsWith(r, ") ")
    ensures |lines| == 0 ==> r == "Future () "
    ensures |lines| > 0 ==> r[8..|r| - 2] == Strip(lines[0])
  {
    "Future (" + (if |lines| == 0 then "" else Strip(lines[0])) + ") "
  }

  /* ---------------------------------------------------------------------- */
  /* Futures filter and number of trials                                     */
  /* ---------------------------------------------------------------------- */

  /** The futures filter of `CHPL_TEST_FUTURES`: whether a test with (or
      without) a `.future` file, and with (or without) a `.skipif` file,
      goes on to run. Mode 0 runs no futures, 1 runs everything, 2 runs only
      futures, 3 runs the futures that have a `.skipif`; any other mode
      filters nothing. */
  function FutureFilter(mode: int, futureFile: bool, skipifFile: bool): (run: bool)
    ensures mode == 0 ==> (run <==> !futureFile)
    ensures mode == 1 ==> run
    ensures mode == 2 ==> (run <==> futureFile)
    ensures mode == 3 ==> (run <==> !futureFile || skipifFile)
    ensures !(0 <= mode <= 3) ==> run
  {
    if mode == 0 && futureFile then false
    else if mode == 1 then true
    else if mode == 2 && !futureFile then false
    else if mode == 3 && futureFile && !skipifFile then false
    else true
  }

  /** Modes 0 and 2 split every set of tests between them, and mode 3 runs
      everything mode 0 runs. */
  lemma FutureModesRelated(futureFile: bool, skipifFile: bool)
    ensures FutureFilter(0, futureFile, skipifFile) != FutureFilter(2, futureFile, skipifFile)
    ensures FutureFilter(0, futureFile, skipifFile) ==> FutureFilter(3, futureFile, skipifFile)
    ensures FutureFilter(3, futureFile, skipifFile) ==> FutureFilter(1, futureFile, skipifFile)
  {
  }

  /** The number of trials of a test whose timeout exceeds the global
      timeout is lowered to one; any other test keeps its number. */
  function EffectiveTrials(timeout: int, globalTimeout: int, numTrials: int): (n: int)
    ensures timeout > globalTimeout ==> n == 1
    ensures timeout <= globalTimeout ==> n == numTrials
  {
    if timeout > globalTimeout then 1 else numTrials
  }

  /** Lowering is done once: a second application changes nothing, and the
      result never exceeds a positive number of trials. */
  lemma EffectiveTrialsStable(timeout: int, globalTimeout: int, numTrials: int)
    ensures var n := EffectiveTrials(timeout, globalTimeout, numTrials);
            EffectiveTrials(timeout, globalTimeout, n) == n
    ensures numTrials >= 1 ==> 1 <= EffectiveTrials(timeout, globalTimeout, numTrials) <= numTrials
  {
  }

  /** A test whose own `.timeout` file holds a number above the global
      timeout, after lines that are blank or comments, has that number as its
      timeout and runs only once, whatever number of trials it had. */
  lemma {:induction false} LongTimeoutRunsOnce(cfg: ScanConfig, dir: ScanDir, f: string, st: Settings,
                                               before: seq<string>, n: int, after: seq<string>, globalTimeout: int)
    requires f in dir.readable
    requires Lines(dir, f) == before + [IntToString(n) + "\n"] + after
    requires forall k :: 0 <= k < |before| ==> !Kept(before[k], true)
    requires n > globalTimeout
    ensures var r := ScanBranch(cfg, dir, f, PerfSfx(cfg.perflabel, "timeout"), st);
            && r == Ok(st.(timeout := n))
            && EffectiveTrials(r.value.timeout, globalTimeout, r.value.numTrials) == 1
  {
    var sfx := PerfSfx(cfg.perflabel, "timeout");
    ReadIntegerValueOfNumeral(f, cfg.localdir, before, n, after);
    TimeoutSuffixDiffers(cfg.perflabel);
  }

  /** The timeout suffix is none of the suffixes the scan tries before it. */
  lemma TimeoutSuffixDiffers(perflabel: string)
    ensures var sfx := PerfSfx(perflabel, "timeout");
            sfx != ".notest" && sfx != ".skipif" && sfx != ".suppressif"
  {
    var sfx := PerfSfx(perflabel, "timeout");
    assert sfx[|sfx| - 1] == 't';
  }

  /* ---------------------------------------------------------------------- */
  /* Order of the scan                                                       */
  /* ---------------------------------------------------------------------- */

  /** The index of the first name ending in `.skipif`, or -1. */
  function FirstSkipIf(files: seq<string>): (i: int)
    ensures -1 <= i < |files|
    ensures i >= 0 ==> EndsWith(files[i], ".skipif")
    ensures forall k :: 0 <= k < |files| && (i < 0 || k < i) ==> !EndsWith(files[k], ".skipif")
  {
    if |files| == 0 then -1
    else if EndsWith(files[0], ".skipif") then 0
    else
      var j := FirstSkipIf(files[1..]);
      assert forall k :: 1 <= k < |files| ==> files[k] == files[1..][k - 1];
      if j < 0 then -1 else j + 1
  }

  /** The scan order: the first `.skipif` file is moved to the front, so
      that a test its script skips is given up before anything else is
      looked at; the other files keep their order. */
  function SkipIfFirst(files: seq<string>): (r: seq<string>)
    ensures |r| == |files| && multiset(r) == multiset(files)
  {
    var i := FirstSkipIf(files);
    if i > 0 then
      assert files == files[..i] + [files[i]] + files[i + 1..];
      [files[i]] + files[..i] + files[i + 1..]
    else files
  }

  /** After reordering, a list holding a `.skipif` name starts with the first
      of them, and what follows is the rest of the list in its old order. */
  lemma {:induction false} SkipIfFirstFront(files: seq<string>)
    ensures var r := SkipIfFirst(files);
            var i := FirstSkipIf(files);
            (i < 0 ==> r == files)
            && (i >= 0 ==> r[0] == files[i] && EndsWith(r[0], ".skipif")
                           && r[1..] == files[..i] + files[i + 1..])
  {
    var i := FirstSkipIf(files);
    if i == 0 {
      assert files[..0] + files[1..] == files[1..];
    } else if i > 0 {
      MovedToFront(files, i);
    }
  }

  lemma MovedToFront<T>(s: seq<T>, i: nat)
    requires i < |s|
    ensures var r := [s[i]] + s[..i] + s[i + 1..];
            r[0] == s[i] && r[1..] == s[..i] + s[i + 1..]
  {
    var r := [s[i]] + s[..i] + s[i + 1..];
    assert r == [s[i]] + (s[..i] + s[i + 1..]);
  }

  /** Reordering twice is reordering once. */
  lemma {:induction false} SkipIfFirstIdempotent(files: seq<string>)
    ensures SkipIfFirst(SkipIfFirst(files)) == SkipIfFirst(files)
  {
    var r := SkipIfFirst(files);
    SkipIfFirstFront(files);
    if FirstSkipIf(files) >= 0 {
      assert FirstSkipIf(r) == 0;
    } else {
      assert r == files;
    }
  }

  /* ---------------------------------------------------------------------- */
  /* The scan over a test's files                                            */
  /* ---------------------------------------------------------------------- */

  /** What the scan is told about the test and the run. */
  datatype ScanConfig = ScanConfig(
    testFilename: string,  // the test's base name, `foo` for `foo.chpl`
    localdir: string,      // the directory, for messages
    perflabel: string,     // `perf` in performance mode, empty otherwise
    perftest: bool,        // performance mode
    notestsZero: bool,     // CHPL_TEST_NOTESTS is `0`
    singlesZero: bool,     // CHPL_TEST_SINGLES is `0`
    stdinRedirect: bool)   // standard input comes from /dev/null: neither -nostdinredirect nor --stdin-redirect

  /** The directory as the scan sees it: the readable files, the lines of
      each file, and what each `.skipif`/`.suppressif` script prints when run
      (running it is outside the model). A file missing from a map reads as
      empty. */
  datatype ScanDir = ScanDir(readable: set<string>, contents: map<string, seq<string>>, output: map<string, string>)

  function Lines(dir: ScanDir, f: string): seq<string> {
    if f in dir.contents then dir.contents[f] else []
  }

  function Output(dir: ScanDir, f: string): string {
    if f in dir.output then dir.output[f] else ""
  }

  /** The per-test settings the scan decides. */
  datatype Settings = Settings(
    doNotTest: bool,      // the test is given up
    skipifFile: bool,     // a `.skipif` file was consulted
    futuresFile: bool,    // the test has a `.future` file
    futureTest: string,   // the future or suppress label, empty if none
    timeout: int,
    numTrials: int,
    killTimeout: int,
    numLocales: int,
    executeBin: bool)

  /** Suffixes the scan passes over: they are read later, per variant. */
  const DeferredSuffixes: set<string> :=
    {".good", ".compopts", ".perfcompopts", ".chpldocopts", ".execenv", ".perfexecenv", ".execopts", ".perfexecopts"}

  /** The message of the fatal error for an unreadable integer file. */
  function IntegerFileError(cfg: ScanConfig, f: string): Failure {
    Fatal("Invalid integer value in " + f + " (" + cfg.localdir + ")")
  }

  /** The branch of the scan for one of the test's own files `f` with
      suffix `suffix`, in the driver's order: the first branch whose suffix
      and conditions match decides. Files whose effect is outside the model
      (`.catfiles`, `.lastcompopts`, `.lastexecopts`, `.perftimeexec`,
      `.precomp`, `.prediff`, `.preexec`, and a `.stdin` that is used as
      input) leave the settings alone. */
  function ScanBranch(cfg: ScanConfig, dir: ScanDir, f: string, suffix: string, st: Settings): (r: Result<Settings>)
    ensures r.Ok? ==> r.value.futuresFile == st.futuresFile
    ensures r.Ok? ==> r.value.skipifFile == (st.skipifFile || (suffix == ".skipif" && f in dir.readable && cfg.singlesZero))
    ensures r.Err? ==> r.failure == IntegerFileError(cfg, f)
  {
    var readable := f in dir.readable;
    if suffix == ".notest" && readable && cfg.notestsZero then
      Ok(st.(doNotTest := true))
    else if suffix == ".skipif" && readable && cfg.singlesZero then
      Ok(st.(skipifFile := true, doNotTest := SkipIfSkips(Output(dir, f))))
    else if suffix == ".suppressif" && readable then
      if SuppressIfSuppresses(Output(dir, f)) then Ok(st.(futureTest := SuppressLabel(Lines(dir, f))))
      else Ok(st)
    else if suffix == PerfSfx(cfg.perflabel, "timeout") && readable then
      var v :- ReadIntegerValue(f, cfg.localdir, Lines(dir, f));
      Ok(st.(timeout := v))
    else if cfg.perftest && suffix == PerfSfx(cfg.perflabel, "numtrials") && readable then
      var v :- ReadIntegerValue(f, cfg.localdir, Lines(dir, f));
      Ok(st.(numTrials := v))
    else if suffix == ".killtimeout" && readable then
      var v :- ReadIntegerValue(f, cfg.localdir, Lines(dir, f));
      Ok(st.(killTimeout := v))
    else if suffix == PerfSfx(cfg.perflabel, "numlocales") && readable then
      var v :- ReadIntegerValue(f, cfg.localdir, Lines(dir, f));
      Ok(st.(numLocales := v))
    else if suffix == ".future" && readable then
      Ok(st.(futureTest := FutureLabel(Lines(dir, f))))
    else if suffix == ".noexec" && readable then
      Ok(st.(executeBin := false))
    else if suffix == ".stdin" && readable && !cfg.stdinRedirect then
      Ok(st.(doNotTest := true))
    else
      Ok(st)
  }

  /** One of the test's own files: its branch, then the note that the test
      is a future when the suffix is `.future` (readable or not). The file
      marks the test a future exactly when its suffix is `.future`, marks it
      as having a `.skipif` exactly when it is a readable `.skipif` looked at
      under CHPL_TEST_SINGLES=0, and can fail only on a malformed integer
      file. */
  function ScanOwnFile(cfg: ScanConfig, dir: ScanDir, f: string, suffix: string, st: Settings): (r: Result<Settings>)
    ensures r.Ok? ==> r.value.futuresFile == (st.futuresFile || suffix == ".future")
    ensures r.Ok? ==> r.value.skipifFile == (st.skipifFile || (suffix == ".skipif" && f in dir.readable && cfg.singlesZero))
    ensures r.Err? ==> r.failure == IntegerFileError(cfg, f)
  {
    var st' :- ScanBranch(cfg, dir, f, suffix, st);
    Ok(if suffix == ".future" then st'.(futuresFile := true) else st')
  }

  /** Whether a name belongs to the test itself (`foo.x`, not `foo.bar.x`)
      and is looked at by the scan. */
  predicate Scanned(testFilename: string, f: string) {
    var (root, suffix) := SplitExt(f);
    root == testFilename && suffix !in DeferredSuffixes
  }

  /** The scan over the files in order: names of other tests and deferred
      suffixes are passed over, and the scan stops as soon as the test is
      given up. */
  function ScanFrom(cfg: ScanConfig, dir: ScanDir, files: seq<string>, st: Settings): (r: Result<Settings>)
    ensures r.Ok? && st.futuresFile ==> r.value.futuresFile
    ensures r.Ok? && st.skipifFile ==> r.value.skipifFile
    decreases |files|
  {
    if |files| == 0 then Ok(st)
    else if !Scanned(cfg.testFilename, files[0]) then ScanFrom(cfg, dir, files[1..], st)
    else
      var st' :- ScanOwnFile(cfg, dir, files[0], SplitExt(files[0]).1, st);
      if st'.doNotTest then Ok(st') else ScanFrom(cfg, dir, files[1..], st')
  }

  /** The scan of a test's files, with the first `.skipif` file moved to the
      front. */
  function Scan(cfg: ScanConfig, dir: ScanDir, files: seq<string>, init: Settings): (r: Result<Settings>)
    ensures r.Err? ==> exists f :: f in files && Scanned(cfg.testFilename, f) && r.failure == IntegerFileError(cfg, f)
    ensures r.Ok? && !r.value.doNotTest ==>
              (r.value.futuresFile <==> init.futuresFile || exists f :: f in files && IsFutureFile(cfg.testFilename, f))
  {
    ScanInListedOrder(cfg, dir, files, init);
    ScanFrom(cfg, dir, SkipIfFirst(files), init)
  }

  /** Moving the `.skipif` to the front changes neither which file can fail
      the scan nor whether a `.future` file is seen. */
  lemma ScanInListedOrder(cfg: ScanConfig, dir: ScanDir, files: seq<string>, init: Settings)
    ensures var r := ScanFrom(cfg, dir, SkipIfFirst(files), init);
            r.Err? ==> exists f :: f in files && Scanned(cfg.testFilename, f) && r.failure == IntegerFileError(cfg, f)
    ensures var r := ScanFrom(cfg, dir, SkipIfFirst(files), init);
            r.Ok? && !r.value.doNotTest ==>
              (r.value.futuresFile <==> init.futuresFile || exists f :: f in files && IsFutureFile(cfg.testFilename, f))
  {
    var order := SkipIfFirst(files);
    var r := ScanFrom(cfg, dir, order, init);
    ScanFailure(cfg, dir, order, init);
    ScanFutureFile(cfg, dir, order, init);
    if r.Err? {
      var k :| 0 <= k < |order| && Scanned(cfg.testFilename, order[k]) && r.failure == IntegerFileError(cfg, order[k]);
      SameMembers(order, files, order[k]);
    }
    var tf := cfg.testFilename;
    if exists k :: 0 <= k < |order| && IsFutureFile(tf, order[k]) {
      var k :| 0 <= k < |order| && IsFutureFile(tf, order[k]);
      SameMembers(order, files, order[k]);
    }
    if exists f :: f in files && IsFutureFile(tf, f) {
      var f :| f in files && IsFutureFile(tf, f);
      SameMembers(order, files, f);
      var k :| 0 <= k < |order| && order[k] == f;
    }
  }

  lemma SameMembers<T>(a: seq<T>, b: seq<T>, x: T)
    requires multiset(a) == multiset(b)
    ensures x in a <==> x in b
  {
    assert x in a <==> x in multiset(a);
    assert x in b <==> x in multiset(b);
  }

  /** The names the scan looks at, in order. */
  function OwnFiles(testFilename: string, files: seq<string>): (r: seq<string>)
    ensures |r| <= |files|
    ensures forall k :: 0 <= k < |r| ==> Scanned(testFilename, r[k])
  {
    if |files| == 0 then []
    else if Scanned(testFilename, files[0]) then [files[0]] + OwnFiles(testFilename, files[1..])
    else OwnFiles(testFilename, files[1..])
  }

  /** Files of other tests (`foo.bar.good` next to `foo.chpl`) and deferred
      files make no difference to the scan. */
  lemma {:induction false} ScanIgnoresOtherFiles(cfg: ScanConfig, dir: ScanDir, files: seq<string>, st: Settings)
    ensures ScanFrom(cfg, dir, files, st) == ScanFrom(cfg, dir, OwnFiles(cfg.testFilename, files), st)
    decreases |files|
  {
    if |files| > 0 {
      var own := OwnFiles(cfg.testFilename, files);
      if Scanned(cfg.testFilename, files[0]) {
        assert own[0] == files[0] && own[1..] == OwnFiles(cfg.testFilename, files[1..]);
        var r := ScanOwnFile(cfg, dir, files[0], SplitExt(files[0]).1, st);
        if r.Ok? && !r.value.doNotTest {
          ScanIgnoresOtherFiles(cfg, dir, files[1..], r.value);
        }
      } else {
        ScanIgnoresOtherFiles(cfg, dir, files[1..], st);
      }
    }
  }

  /** A `.future` file of the test itself. */
  predicate IsFutureFile(testFilename: string, f: string) {
    SplitExt(f) == (testFilename, ".future")
  }

  /** A test's `.future` file is looked at by the scan, and a file the scan
      looks at is a `.future` file exactly when its suffix is `.future`. */
  lemma FutureFileScanned(testFilename: string, f: string)
    ensures IsFutureFile(testFilename, f) ==> Scanned(testFilename, f)
    ensures Scanned(testFilename, f) ==> (IsFutureFile(testFilename, f) <==> SplitExt(f).1 == ".future")
  {
  }

  /** Some file of the list is a `.future` file of the test. */
  predicate HasFutureFile(testFilename: string, files: seq<string>)
    decreases |files|
  {
    |files| > 0 && (IsFutureFile(testFilename, files[0]) || HasFutureFile(testFilename, files[1..]))
  }

  lemma {:induction false} HasFutureFileIff(testFilename: string, files: seq<string>)
    ensures HasFutureFile(testFilename, files) <==>
              exists k :: 0 <= k < |files| && IsFutureFile(testFilename, files[k])
    decreases |files|
  {
    if |files| > 0 {
      HasFutureFileIff(testFilename, files[1..]);
      assert forall k :: 1 <= k < |files| ==> files[k] == files[1..][k - 1];
      if exists k :: 0 <= k < |files| && IsFutureFile(testFilename, files[k]) {
        var k :| 0 <= k < |files| && IsFutureFile(testFilename, files[k]);
        if k > 0 {
          assert IsFutureFile(testFilename, files[1..][k - 1]);
        }
      }
    }
  }

  /** One step of the scan, as the cases of its first file. */
  lemma ScanFromHead(cfg: ScanConfig, dir: ScanDir, files: seq<string>, st: Settings)
    requires |files| > 0
    ensures !Scanned(cfg.testFilename, files[0]) ==> ScanFrom(cfg, dir, files, st) == ScanFrom(cfg, dir, files[1..], st)
    ensures var r := ScanOwnFile(cfg, dir, files[0], SplitExt(files[0]).1, st);
            Scanned(cfg.testFilename, files[0]) ==>
              if r.Err? then ScanFrom(cfg, dir, files, st) == Err(r.failure)
              else if r.value.doNotTest then ScanFrom(cfg, dir, files, st) == r
              else ScanFrom(cfg, dir, files, st) == ScanFrom(cfg, dir, files[1..], r.value)
  {
  }

  /** A test that is not given up is a future exactly when one of its own
      files has the suffix `.future`. */
  lemma {:induction false} ScanFutureFlag(cfg: ScanConfig, dir: ScanDir, files: seq<string>, st: Settings)
    ensures var r := ScanFrom(cfg, dir, files, st);
            r.Ok? && !r.value.doNotTest ==>
              (r.value.futuresFile <==> st.futuresFile || HasFutureFile(cfg.testFilename, files))
    decreases |files|
  {
    if |files| > 0 {
      var tf := cfg.testFilename;
      var f := files[0];
      FutureFileScanned(tf, f);
      ScanFromHead(cfg, dir, files, st);
      if Scanned(tf, f) {
        var r := ScanOwnFile(cfg, dir, f, SplitExt(f).1, st);
        if r.Ok? && !r.value.doNotTest {
          ScanFutureFlag(cfg, dir, files[1..], r.value);
        }
      } else {
        ScanFutureFlag(cfg, dir, files[1..], st);
      }
    }
  }

  /** The same, with the `.future` file named by its position. */
  lemma ScanFutureFile(cfg: ScanConfig, dir: ScanDir, files: seq<string>, st: Settings)
    ensures var r := ScanFrom(cfg, dir, files, st);
            r.Ok? && !r.value.doNotTest ==>
              (r.value.futuresFile <==>
                 st.futuresFile || exists k :: 0 <= k < |files| && IsFutureFile(cfg.testFilename, files[k]))
  {
    ScanFutureFlag(cfg, dir, files, st);
    HasFutureFileIff(cfg.testFilename, files);
  }

  /** The scan fails only with the fatal error of one of the test's own
      integer files (`.timeout`, `.killtimeout`, ...). */
  lemma {:induction false} ScanFailure(cfg: ScanConfig, dir: ScanDir, files: seq<string>, st: Settings)
    ensures var r := ScanFrom(cfg, dir, files, st);
            r.Err? ==> exists k :: 0 <= k < |files| && Scanned(cfg.testFilename, files[k])
                                  && r.failure == IntegerFileError(cfg, files[k])
    decreases |files|
  {
    if |files| > 0 {
      var tf := cfg.testFilename;
      if Scanned(tf, files[0]) {
        var r := ScanOwnFile(cfg, dir, files[0], SplitExt(files[0]).1, st);
        if r.Ok? && !r.value.doNotTest {
          ScanFailure(cfg, dir, files[1..], r.value);
          assert forall k :: 1 <= k < |files| ==> files[k] == files[1..][k - 1];
        }
      } else {
        ScanFailure(cfg, dir, files[1..], st);
        assert forall k :: 1 <= k < |files| ==> files[k] == files[1..][k - 1];
      }
    }
  }

  /** A readable `.skipif` file of the test, looked at first under
      CHPL_TEST_SINGLES=0, whose script does not clearly say no, gives up
      the test before any other file is looked at. */
  lemma {:induction false} ScanStopsAtSkipIf(cfg: ScanConfig, dir: ScanDir, rest: seq<string>, st: Settings)
    requires |cfg.testFilename| > 0 && cfg.testFilename[0] != '.'
    requires cfg.testFilename + ".skipif" in dir.readable && cfg.singlesZero
    requires SkipIfSkips(Output(dir, cfg.testFilename + ".skipif"))
    ensures ScanFrom(cfg, dir, [cfg.testFilename + ".skipif"] + rest, st)
         == Ok(st.(skipifFile := true, doNotTest := true))
  {
    var f := cfg.testFilename + ".skipif";
    SplitExtOfSettingsFile(cfg.testFilename, "skipif");
    assert cfg.testFilename + "." + "skipif" == f;
    assert ".skipif" !in DeferredSuffixes;
    SkipIfOwnFile(cfg, dir, f, st);
    ScanStopsAtHead(cfg, dir, f, rest, st, st.(skipifFile := true, doNotTest := true));
  }

  lemma SkipIfOwnFile(cfg: ScanConfig, dir: ScanDir, f: string, st: Settings)
    requires f in dir.readable && cfg.singlesZero && SkipIfSkips(Output(dir, f))
    ensures ScanOwnFile(cfg, dir, f, ".skipif", st) == Ok(st.(skipifFile := true, doNotTest := true))
  {
    assert ".skipif" != ".notest" && ".skipif" != ".future";
  }

  /** With the reordering, a test whose first `.skipif` name is its own
      readable `.skipif` file, and whose script does not clearly say no, is
      given up whatever other files it has. */
  lemma {:induction false} ScanSkipsBySkipIf(cfg: ScanConfig, dir: ScanDir, files: seq<string>, init: Settings)
    requires |cfg.testFilename| > 0 && cfg.testFilename[0] != '.'
    requires cfg.testFilename + ".skipif" in dir.readable && cfg.singlesZero
    requires SkipIfSkips(Output(dir, cfg.testFilename + ".skipif"))
    requires var i := FirstSkipIf(files); i >= 0 && files[i] == cfg.testFilename + ".skipif"
    ensures Scan(cfg, dir, files, init) == Ok(init.(skipifFile := true, doNotTest := true))
  {
    var r := SkipIfFirst(files);
    SkipIfFirstFront(files);
    assert r == [r[0]] + r[1..];
    ScanStopsAtSkipIf(cfg, dir, r[1..], init);
  }

  /** A readable `.notest` file, under CHPL_TEST_NOTESTS=0, gives up the test
      as soon as the scan reaches it. */
  lemma {:induction false} ScanStopsAtNotest(cfg: ScanConfig, dir: ScanDir, rest: seq<string>, st: Settings)
    requires |cfg.testFilename| > 0 && cfg.testFilename[0] != '.'
    requires cfg.testFilename + ".notest" in dir.readable && cfg.notestsZero
    ensures ScanFrom(cfg, dir, [cfg.testFilename + ".notest"] + rest, st) == Ok(st.(doNotTest := true))
  {
    var f := cfg.testFilename + ".notest";
    SplitExtOfSettingsFile(cfg.testFilename, "notest");
    assert cfg.testFilename + "." + "notest" == f;
    assert ".notest" !in DeferredSuffixes;
    NotestOwnFile(cfg, dir, f, st);
    ScanStopsAtHead(cfg, dir, f, rest, st, st.(doNotTest := true));
  }

  lemma NotestOwnFile(cfg: ScanConfig, dir: ScanDir, f: string, st: Settings)
    requires f in dir.readable && cfg.notestsZero
    ensures ScanOwnFile(cfg, dir, f, ".notest", st) == Ok(st.(doNotTest := true))
  {
    assert ".notest" != ".future";
  }

  /** A head file that gives the test up ends the scan there. */
  lemma ScanStopsAtHead(cfg: ScanConfig, dir: ScanDir, f: string, rest: seq<string>, st: Settings, st': Settings)
    requires Scanned(cfg.testFilename, f)
    requires ScanOwnFile(cfg, dir, f, SplitExt(f).1, st) == Ok(st') && st'.doNotTest
    ensures ScanFrom(cfg, dir, [f] + rest, st) == Ok(st')
  {
    assert ([f] + rest)[0] == f;
    ScanFromHead(cfg, dir, [f] + rest, st);
  }

  /** After the scan: whether the test goes on to be compiled. A test given
      up by the scan, a future the futures filter drops, and a C test under
      a launcher are not. */
  function Admitted(st: Settings, futuresMode: int, isCTest: bool, launcher: string): (run: bool)
    ensures run ==> !st.doNotTest
    ensures run ==> FutureFilter(futuresMode, st.futuresFile, st.skipifFile)
    ensures isCTest && launcher != "none" ==> !run
    ensures !st.doNotTest && FutureFilter(futuresMode, st.futuresFile, st.skipifFile) && (!isCTest || launcher == "none") ==> run
  {
    if st.doNotTest then false
    else if !FutureFilter(futuresMode, st.futuresFile, st.skipifFile) then false
    else if isCTest && launcher != "none" then false
    else true
  }
}
