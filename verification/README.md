# A model of Chapel's per-directory test driver

`util/test/sub_test.py` is the part of Chapel's test system that runs the
tests of one directory. For every `foo.chpl` (or `foo.test.c`) it does four
things:

- It looks at the test's companion files, such as `foo.notest`, `foo.skipif`,
  `foo.future`, `foo.timeout` and `foo.numlocales`. From them it decides
  whether to run the test at all and with which settings.
- It expands the directory's and the test's option files into compile and
  execution variants.
- It compiles and runs every variant.
- It compares each output with the most specific `.good` file that exists.

This project models the decision logic of that driver in Dafny as pure
functions, and proves what the driver promises about it.

Things the driver gets from the outside world are inputs to the model:

- the files of the directory, as sets of names plus their lines;
- what a `.skipif` or `.suppressif` script printed;
- the exit statuses of the compiler, the program and `diff`;
- what a launcher's output revealed.

The modules follow the driver's structure:

- `Wrappers`: `Option` and `Result`. The two kinds of failure are `Fatal`
  (the driver's `Fatal()`, which exits with code 173) and `Crash` (a Python
  exception nobody catches, such as an `IndexError`).
- `Strings`, `Decimal`: the Python string operations the driver relies on:
  `strip`, `split`, `join`, `replace` and `upper`. `Decimal` also has
  Python 2's `int()` on strings, where `None` stands for `ValueError`.
- `ConfigFiles`: `ReadFileWithComments` and `ReadIntegerValue`; the exit code
  of `Fatal`; `PerfSfx`, `PerfDirFile` and `PerfTFile`.
- `Discovery`: which names are tests, the test's base name, and
  `os.path.splitext`.
- `Selection`: the scan over a test's own files in the driver's branch order;
  `.skipif`/`.suppressif` output; the suppress and future labels; the
  futures filter; the number of trials.
- `Variants`: the directory × test compile-option cross product; variant
  numbering; compile and execution log names; explicit good files; the
  `(compopts: N, execopts: M)` label.
- `ExecEnv`: the environment built from `EXECENV` and `foo.execenv`.
- `GoodFile`: `FindGoodFile`'s search order, and the good file a compile
  result or a run is compared with.
- `Formatting`: the launcher `--walltime=hh:mm:ss` argument,
  `ShellEscape`/`ShellEscapeCommand`, and `trim_output`.
- `Outcome`: how a compilation and a run are judged. This covers timeouts,
  launcher errors, a missing good file, success or failure, the `.bad` file
  of a future, and whether the output log is kept.

The driver's comments describe the `.bad` comparison as ignoring line
numbers, and the compile path does use `DiffBadFiles` for it. The execution
path uses plain `DiffFiles` (line 1595). In the model, both diffs' exit
statuses are inputs, so the two paths differ only in which tool produced
the status.

## Model

| member | source | states |
|---|---|---|
| ConfigFiles.ReadFileWithComments | util/test/sub_test.py:1774-1790 | Every kept line is non-blank and not a comment under the chosen rule (leading spaces ignored or not). It is right-stripped and is the right-stripped form of some input line. There are never more kept lines than input lines. |
| ConfigFiles.ReadFileWithCommentsAppend | util/test/sub_test.py:1778-1789 | The filter judges each line on its own: reading `a + b` gives the reading of `a` followed by the reading of `b`. |
| ConfigFiles.ReadFileWithCommentsSingle | util/test/sub_test.py:1779-1789 | One line is kept, right-stripped, exactly when it is neither blank nor a comment. Together with the append lemma this pins the result down completely. |
| ConfigFiles.ReadFileWithCommentsIdempotent | util/test/sub_test.py:1774-1790 | Reading an already filtered list again changes nothing. |
| ConfigFiles.ReadIntegerValue | util/test/sub_test.py:1909-1919 | The result is the integer on the first kept line exactly when some line is kept and that line parses. Otherwise the result is the fatal error "Invalid integer value in f (dir)". |
| ConfigFiles.ReadIntegerValueOfNumeral | util/test/sub_test.py:1909-1919 | Blank and comment lines followed by a line holding a written integer read back as that integer, whatever follows. |
| ConfigFiles.FatalExitCode | util/test/sub_test.py:1922-1929 | The exit code is the sum of the character codes of "CHAPEL" modulo 256, which is 173. |
| ConfigFiles.PerfSfx | util/test/sub_test.py:1762-1763 | A suffix is `.`, then exactly the performance label, then exactly the kind; its length is the sum of theirs plus one. |
| ConfigFiles.PerfDirFile | util/test/sub_test.py:1766-1767 | A directory-wide name is `./`, then the upper-cased performance label, then the upper-cased kind, with no lower-case letter after `./`. |
| ConfigFiles.PerfDirFileOfSfx | util/test/sub_test.py:1762-1767 | The directory-wide name is `./` plus the upper-cased suffix without its leading dot, so the two namings agree. |
| ConfigFiles.PerfDirFileCaseInsensitive | util/test/sub_test.py:1765-1767 | `COMPOPTS` and `compopts` name the same directory-wide file. |
| ConfigFiles.PerfTFile | util/test/sub_test.py:1769-1771 | A test's performance file is the test's name followed by `PerfSfx` of the kind. |
| ConfigFiles.PerfTFileSplitExt | util/test/sub_test.py:1769-1771 | For a label and kind without dots, `os.path.splitext` of a test's performance file gives back the test's name and `PerfSfx` of the kind, so the scan recognises it as the test's own file. |
| ConfigFiles.PerfNamesInjective | util/test/sub_test.py:1762-1771 | Different kinds give different suffixes and different per-test file names. |
| Decimal.ParseIntToString | util/test/sub_test.py:1901-1906 | `int()` accepts every integer written in decimal and reads it back unchanged. |
| Decimal.ParseInt | util/test/sub_test.py:704-707 | A string `int()` accepts ends, once stripped, in a digit, and reads as a negative number only when it starts with `-`. |
| Discovery.TestFilename | util/test/sub_test.py:602-612 | The base name plus `.chpl` or `.test.c` is the test's name (less a final newline, which `$` allows). It is a C test exactly when the extension is `.test.c`. The base name is non-empty and has no newline. |
| Discovery.TestFilenameRoundTrip | util/test/sub_test.py:1753-1757 | Every non-empty stem without a newline, with either extension, is recognised as a test. Its base name is the stem, and it is a C test exactly when the extension is `.test.c`. |
| Discovery.IsChplTest | util/test/sub_test.py:1753-1757 | Every C test is a test, and a test name (less a final newline) is longer than five characters and ends in `.chpl` or `.test.c`. |
| Discovery.SplitExt | util/test/sub_test.py:679 | Root and extension concatenate to the name. The extension is empty or is a dot followed by no further dot. |
| Discovery.SplitExtOfSettingsFile | util/test/sub_test.py:679-684 | A settings file `foo.kind` splits into the root `foo` and the extension `.kind`, so the scan sees it as the test's own file. |
| GoodFile.MachineName | util/test/sub_test.py:249 | The machine name is the host name up to its first dot: a dot-free prefix followed by a dot or the end. |
| GoodFile.Candidates | util/test/sub_test.py:1956-1983 | For one suffix, the names are tried in this order: machine, `.no-local` (only under `--no-local`), comm plus locale model, comm, locale model, platform, plain. That is 7 names under `--no-local` and 6 otherwise. The last is the plain name. |
| GoodFile.CandidatesEndWithSuffix | util/test/sub_test.py:1956-1983 | Every name tried for a suffix ends in that suffix plus `.good`. |
| GoodFile.TrySuffix | util/test/sub_test.py:1959-1981 | One pass keeps a name that is a file. Otherwise it yields one of its suffix's candidates, and a name that is not a file only when it is the plain name for the suffix. |
| GoodFile.FindFromTried | util/test/sub_test.py:1958-1983 | Starting from a name that is not a file, the loop ends on one of the names it tried for the given suffixes. |
| GoodFile.FindGoodFile | util/test/sub_test.py:1956-1983 | With no suffix the result is the empty name. Otherwise it is always one of the candidates tried for the suffixes, never a name from elsewhere. |
| GoodFile.TrySuffixSpec | util/test/sub_test.py:1959-1981 | One pass of the loop keeps a name that exists. Otherwise it yields the first existing candidate for its suffix, or the plain name when none exists. |
| GoodFile.KeepsExisting | util/test/sub_test.py:1959-1981 | Once an existing file has been found, later suffixes do not change it. |
| GoodFile.FindGoodFileSpec | util/test/sub_test.py:1956-1983 | The result is the first existing candidate over all suffixes in order. When none exists, it is the plain name for the last suffix; when no suffix is given, it is the empty name. |
| GoodFile.FindGoodFileIsGoodName | util/test/sub_test.py:1956-1983 | With at least one suffix, the result always ends in `.good`. |
| GoodFile.EarlierSuffixWins | util/test/sub_test.py:1958-1981 | When some candidate for the first suffix exists, the result is one of that suffix's candidates. |
| GoodFile.NoLocalPreferred | util/test/sub_test.py:1962-1968 | Under `--no-local`, without a machine-specific file, an existing `.no-local.good` is chosen. |
| GoodFile.CompileGoodFile | util/test/sub_test.py:1092-1097 | The compiler's good file is the first existing candidate (machine, `.no-local`, comm and locale model, …, plain) for the test's base name, or for the explicit `#name` with `.good` removed; when none exists it is that name plus `.good`. |
| GoodFile.SingleSuffixSpec | util/test/sub_test.py:1956-1983 | With only the plain suffix, the search yields the first existing candidate, or the name plus `.good`. |
| GoodFile.ExecSuffixes | util/test/sub_test.py:1551-1564 | Two suffixes, `.<c>-<e>` then plain, exactly when the test has several variants and no explicit good file. Otherwise only the plain suffix. |
| GoodFile.ExecGoodFile | util/test/sub_test.py:1551-1566 | The run's good file always ends in `.good`. For the only variant of a test, or with an explicit good file, it is the same file the compiler output would use. |
| GoodFile.VariantSpecificGoodFileWins | util/test/sub_test.py:1551-1566 | In a test with several variants, an existing variant-specific good file beats the shared `foo.good`. |
| Variants.DirectoryCompopts | util/test/sub_test.py:472-478 | The directory options are either the one blank option or consist of kept, right-stripped lines of an option file. |
| Variants.DirectoryCompoptsFallback | util/test/sub_test.py:472-478 | Outside performance mode `./PERFCOMPOPTS` is never consulted, and in performance mode a missing `./PERFCOMPOPTS` falls back to `./COMPOPTS`. |
| Variants.EmptyCompoptsFileDropsTest | util/test/sub_test.py:849-866 | As written, a readable `foo.compopts` with no option line yields no compile option at all, so the cross product is empty. |
| Variants.TestCompopts | util/test/sub_test.py:838-853 | The test's own compile options are never empty. They are the file's option lines, or the one blank option when the file is missing or, as the warning says, ignored. |
| Variants.TestCompoptsAsWritten | util/test/sub_test.py:838-853 | As written, the test's own options are empty exactly when the option file used (the chpldoc one or `foo.compopts`) is readable and has no option line; otherwise they are the one blank option or kept lines. |
| Variants.ExecOptsList | util/test/sub_test.py:882-891 | The execution options are never empty. When the readable `foo.execopts` has option lines they are exactly those lines; otherwise they are the one blank option. |
| Variants.OptionListShapes | util/test/sub_test.py:838-891 | Each option list is either the one blank option or consists of kept, right-stripped comment-file lines. |
| Variants.CompoptsProduct | util/test/sub_test.py:856-866 | An empty test option list makes the cross product empty. |
| Variants.JoinPairStrip | util/test/sub_test.py:858-864 | Joining a directory and a test option changes nothing but blank pairings: stripped, the result equals the two options joined by a space, and it is blank exactly when that join is. |
| Variants.ProductLength | util/test/sub_test.py:856-866 | The cross product has \|dir\| × \|test\| entries. |
| Variants.ProductAt | util/test/sub_test.py:856-866 | Entry `i·\|test\| + j` is directory option `i` joined with test option `j` (directory-major order). |
| Variants.ProductMember | util/test/sub_test.py:856-866 | Every entry of the product is the pairing of some directory option with some test option. |
| Variants.DefaultProduct | util/test/sub_test.py:856-866 | Without option files, the product is the one blank option. |
| Variants.SplitCompileEntry | util/test/sub_test.py:904-911 | An entry without `#` is used whole. Otherwise its options are the `#`-free text before the first `#`, and the remainder is kept for the explicit good file. |
| Variants.CompileExplicitGoodSpec | util/test/sub_test.py:1093-1094 | A compile entry names as its good file the stripped text between its first and second `#`, and names none without `#`. |
| Variants.CompileVariants | util/test/sub_test.py:898-917 | There is one compile variant per entry. Variant `k` carries its own entry's options and explicit good file, is numbered at most `k+1`, and its log name follows its options and number. |
| Variants.CompileVariantAt | util/test/sub_test.py:898-917 | Each compile variant carries its own entry's options and explicit good file, and its log name follows its number. |
| Variants.NumberedInOrder | util/test/sub_test.py:913-917 | When no entry is the blank option, the variants are numbered consecutively from the previous count. |
| Variants.CompLogName | util/test/sub_test.py:913-917 | A compile log starts with the executable's name and ends in `.comp.out.tmp`; it is the short unnumbered name exactly when the options are the blank option. |
| Variants.CompileNumbering | util/test/sub_test.py:898-917 | Either the test has exactly the one blank option, unnumbered with log `<name>.comp.out.tmp`, or variant `k` is numbered `k+1` with log `<name>.<k+1>.comp.out.tmp`. |
| Variants.ExecLogName | util/test/sub_test.py:1985-1991 | An execution log starts with the executable's name and ends in `.exec.out.tmp`; it is the short uncounted name exactly when no counts are given, and otherwise carries `.<c>-<e>`. |
| Variants.ExecLogNamesDistinct | util/test/sub_test.py:1985-1991 | A counted log name never equals the uncounted one, and different counts give different names. |
| Variants.NumLocalesOpts | util/test/sub_test.py:825-829 | ` -nl <n>` is added exactly when the locale count is non-zero, the comm layer is not `none` and the test is not a C test; the number after ` -nl ` reads back as the locale count. |
| Variants.ExecEntry | util/test/sub_test.py:1258-1267 | The options are the stripped text before `#`, plus the locale option when there is one. Without `#` the entry inherits the compile good file. With `#` it crashes exactly when the text between the first `#` and the next is blank, and otherwise names a non-empty, space-free good file. |
| Variants.ExecEntrySpec | util/test/sub_test.py:1259-1267 | The options are the stripped text before `#`, plus the locale count. Without `#` the entry inherits the compile good file. After `#` the first word names the good file, and an entry with no word there crashes. |
| Variants.CountsStay | util/test/sub_test.py:1249-1251 | With one compile option and one execution option, the execution count never moves. |
| Variants.ExecCounts | util/test/sub_test.py:1249-1256 | Entry `k`'s execution count lies between the previous count and that count plus `k+1`. |
| Variants.ExecVariants | util/test/sub_test.py:1249-1267 | Each run carries its own entry's options and good file and a count of at most `k+1`. It uses the uncounted log exactly when the test has one compile and one execution option; otherwise its log counts are the compile number and its own count. |
| Variants.ExecNumberedInOrder | util/test/sub_test.py:1249-1256 | Otherwise, non-blank execution entries are numbered consecutively. |
| Variants.ExecLogUnindexedIff | util/test/sub_test.py:1249-1256 | A run uses the uncounted log exactly when the test has one compile option and one execution option. |
| Variants.ExecLogsDistinct | util/test/sub_test.py:1249-1256 | Two different execution entries of one compile variant write to different logs. |
| Variants.PrewrittenExecLogs | util/test/sub_test.py:1138-1166 | Every log written with the compiler output starts with the executable's name and ends in `.exec.out.tmp`. |
| Variants.PrewrittenLogsMatchLoop | util/test/sub_test.py:1138-1166 | The logs written with the compiler output before execution, in all four cases, are exactly the logs the execution loop then uses. |
| Variants.NoExecOptsFile | util/test/sub_test.py:882-891 | Without `foo.execopts` and with one compile option, there is a single run with empty options, the unnumbered log and the compile good file. |
| Variants.PrintTestVariation | util/test/sub_test.py:1877-1898 | The label is empty exactly when neither count is shown. A count is shown when it is non-zero and its list has more than one entry. |
| Variants.PrintTestVariationRoundTrip | util/test/sub_test.py:1877-1898 | A non-empty label decodes back to exactly the counts it shows. |
| ExecEnv.EnvFileEntries | util/test/sub_test.py:869-872 | No assignments come from an unreadable file. From a readable one, there are no more than its lines, each kept (not blank, not an indented comment), right-stripped, and read from the file. |
| ExecEnv.EnvEntry | util/test/sub_test.py:876-879 | Cutting at `=` succeeds exactly when the line has a `=`. The name and the value hold no `=`. |
| ExecEnv.EnvEntryOfAssignment | util/test/sub_test.py:876-879 | `NAME=value` reads back as `(NAME, value)`. |
| ExecEnv.EnvValueStopsAtSecondEquals | util/test/sub_test.py:876-879 | A value is cut at a second `=`: `a=b=c` sets `a` to `b`. |
| ExecEnv.ParseEnv | util/test/sub_test.py:874-879 | A parse yields one assignment per line. It fails only with an `IndexError`, and only when some line has no `=`. |
| ExecEnv.ParseEnvFails | util/test/sub_test.py:874-879 | Parsing fails with an `IndexError` exactly when some line has no `=`. |
| ExecEnv.ParseEnvAt | util/test/sub_test.py:874-879 | Each parsed assignment is its own line's cut. |
| ExecEnv.LastValueSpec | util/test/sub_test.py:874-879 | A value is found exactly when some assignment sets the name. The value found is that of an assignment no later one overrides. |
| ExecEnv.ApplyEnv | util/test/sub_test.py:874-879 | Applying assignments keeps every variable already set, sets every assigned name, and sets no other variable. |
| ExecEnv.ApplyEnvLookup | util/test/sub_test.py:874-879 | After the assignments, a variable has its last assigned value or keeps its earlier value, and no other variable appears. |
| ExecEnv.TestEnvPrecedence | util/test/sub_test.py:874-879 | The test's own file overrides `EXECENV` for a variable both set. A variable set by only one file takes that file's (stripped) value, and nothing else is set. |
| ExecEnv.TestEnv | util/test/sub_test.py:874-879 | Building a test's environment fails only with an `IndexError`, and only when a line of `EXECENV` or `foo.execenv` has no `=`. |
| ExecEnv.TestEnvFails | util/test/sub_test.py:874-879 | The test crashes with an `IndexError` exactly when a line of either file has no `=`. |
| Selection.ConditionHolds | util/test/sub_test.py:704-707 | The output says yes exactly when, stripped, it is `True`, or it is not `False` and parses as the integer 1. It says no exactly when it is `False` or parses as another integer, and it is unreadable (a `ValueError`) exactly when it is neither word and does not parse. |
| Selection.SkipIfSkips | util/test/sub_test.py:700-715 | A `.skipif` keeps the test exactly when its output is `False`, or is not `True` and parses as an integer other than 1; unreadable output skips the test. |
| Selection.SuppressIfSuppresses | util/test/sub_test.py:717-734 | A `.suppressif` suppresses the test exactly when its output is `True`, or is not `False` and parses as 1; unreadable output does not suppress. |
| Selection.ConditionFailures | util/test/sub_test.py:700-734 | Unreadable output skips the test (the `.skipif` branch) but does not suppress it (the `.suppressif` branch). Whatever suppresses would also skip. |
| Selection.ConditionOfNumeral | util/test/sub_test.py:704-707 | A printed integer says yes exactly when it is 1. |
| Selection.ConditionOfWord | util/test/sub_test.py:704-707 | A printed `True`/`False` line says yes or no accordingly. |
| Selection.FirstReasonLine | util/test/sub_test.py:726-731 | The index found is that of the first stripped line that starts with `#` and not `#!`. None is found when no line does. |
| Selection.ReasonText | util/test/sub_test.py:730 | The reason has no `#` and is already stripped. |
| Selection.SuppressReason | util/test/sub_test.py:725-731 | The reason is `#`-free and stripped whatever the file holds. |
| Selection.SuppressReasonAt | util/test/sub_test.py:726-731 | The reason comes from the first reason line. |
| Selection.SuppressReasonOfComment | util/test/sub_test.py:725-732 | A `#reason` line after lines that are not reason lines yields exactly `reason`. |
| Selection.SuppressLabel | util/test/sub_test.py:732 | The label is `Suppress (` + reason + `) `. |
| Selection.FutureLabel | util/test/sub_test.py:764-766 | The label is `Future (` + the stripped first line + `) `, or `Future () ` for an empty file. |
| Selection.FutureFilter | util/test/sub_test.py:804-818 | Mode 0 runs non-futures only, 1 runs all, 2 runs futures only, and 3 runs non-futures and futures that have a `.skipif`. Other values run everything. |
| Selection.FutureModesRelated | util/test/sub_test.py:804-818 | Modes 0 and 2 split the tests between them. Mode 0 admits no more than mode 3, and mode 3 no more than mode 1. |
| Selection.EffectiveTrials | util/test/sub_test.py:831-836 | A timeout above the global one lowers the number of trials to 1. Otherwise the number of trials is unchanged. |
| Selection.LongTimeoutRunsOnce | util/test/sub_test.py:831-836 | A test whose `.timeout` file (read at lines 736-737) holds, after blank and comment lines, a number above the global timeout has that timeout set by the scan, and then runs one trial. |
| Selection.EffectiveTrialsStable | util/test/sub_test.py:831-836 | Lowering again changes nothing, and a positive count only decreases, never below 1. |
| Selection.FirstSkipIf | util/test/sub_test.py:668-672 | The index found is that of the first name ending in `.skipif`, or -1 when no name does. |
| Selection.SkipIfFirst | util/test/sub_test.py:668-674 | Moving the `.skipif` to the front is a permutation: same length and same multiset of names. |
| Selection.SkipIfFirstFront | util/test/sub_test.py:668-674 | After the move, the first `.skipif` is in front and the others keep their order. With no `.skipif` the list is unchanged. |
| Selection.SkipIfFirstIdempotent | util/test/sub_test.py:668-674 | Moving twice is moving once. |
| Selection.ScanBranch | util/test/sub_test.py:686-793 | A branch leaves the future flag alone. It sets the skip-if flag exactly for a readable `.skipif` under CHPL_TEST_SINGLES=0. It fails only with the fatal error of a malformed integer file. |
| Selection.ScanOwnFile | util/test/sub_test.py:795-796 | A file marks the test a future exactly when its suffix is `.future`, whether or not that file is readable. |
| Selection.OwnFiles | util/test/sub_test.py:679-692 | The names the scan looks at are the test's own files with a non-deferred suffix. |
| Selection.ScanIgnoresOtherFiles | util/test/sub_test.py:679-692 | Scanning all names is scanning only the test's own, non-deferred files. |
| Selection.FutureFileScanned | util/test/sub_test.py:683-692 | A test's `.future` file is always looked at. A looked-at file is a future file exactly when its suffix is `.future`. |
| Selection.ScanFromHead | util/test/sub_test.py:677-797 | The scan ends at a failure or at a give-up, and otherwise moves on with the updated settings. |
| Selection.ScanFrom | util/test/sub_test.py:677-797 | A completed scan never clears the future or the skip-if flag once set. |
| Selection.Scan | util/test/sub_test.py:668-797 | A failed scan fails with the fatal error of one of the test's own scanned files. A completed scan that keeps the test marks it a future exactly when it was one already or one of the listed names is its `.future`, whatever the listing order. |
| Selection.ScanInListedOrder | util/test/sub_test.py:668-797 | The same two facts, stated for the list after the `.skipif` has been moved to the front. |
| Selection.ScanFutureFlag | util/test/sub_test.py:795-796 | After a completed scan, the test is a future exactly when it was already one or one of its files is its `.future`. |
| Selection.ScanFutureFile | util/test/sub_test.py:676-797 | The same, stated with an index into the list of names. |
| Selection.ScanFailure | util/test/sub_test.py:736-762 | A failed scan always fails with the fatal error of one of the test's own scanned files. |
| Selection.ScanStopsAtSkipIf | util/test/sub_test.py:700-715 | A readable `.skipif` at the front that says skip (or whose output cannot be read) gives the test up at once, with no other file looked at. |
| Selection.ScanSkipsBySkipIf | util/test/sub_test.py:668-715 | Because the `.skipif` goes first, such a file gives the test up whatever files come before it in the listing. |
| Selection.ScanStopsAtNotest | util/test/sub_test.py:694-698 | A readable `.notest` under CHPL_TEST_NOTESTS=0 gives the test up at once. |
| Selection.Admitted | util/test/sub_test.py:800-823 | A test runs exactly when it was not given up, the futures filter admits it, and it is not a C test under a launcher. |
| Formatting.Walltime | util/test/sub_test.py:1719-1721 | `divmod` splits the seconds into h·3600 + m·60 + s with 0 ≤ m, s < 60. |
| Formatting.LauncherTimeoutArgs | util/test/sub_test.py:1717-1726 | With `pbs` or `slurm` the result is one argument, which reads back as the given number of seconds. Any other launcher timeout is the fatal "unknown format spec" error. |
| Formatting.WalltimeRoundTrip | util/test/sub_test.py:1719-1723 | The `--walltime=hh:mm:ss` argument reads back as the number of seconds it was made from. |
| Formatting.ShellEscape | util/test/sub_test.py:1734-1735 | Escaping never shortens an argument. |
| Formatting.ShellEscapeCommand | util/test/sub_test.py:1738-1739 | Escaping never shortens a command. |
| Formatting.UnescapeEscape | util/test/sub_test.py:1734-1739 | Removing the backslashes again gives back the original text. |
| Formatting.ShellEscapeRoundTrip | util/test/sub_test.py:1734-1739 | Both escapes are undone by removing the backslashes. |
| Formatting.EscapeEscapes | util/test/sub_test.py:1734-1739 | In the result, every special character (and, for arguments, every space) is preceded by a backslash. |
| Formatting.EscapePlain | util/test/sub_test.py:1734-1739 | Text without special characters is unchanged, and without spaces the two escapes agree. |
| Formatting.Printable | util/test/sub_test.py:1749 | A printable character is kept, and any other becomes `~`. |
| Formatting.TrimOutput | util/test/sub_test.py:1743-1749 | Output of up to 256 KiB keeps its length (one character stands for one byte). Longer output keeps its first and last 128 KiB. Every character is printable, and each is the printable form of the character at its source position. |
| Formatting.TrimOutputIdempotent | util/test/sub_test.py:1743-1749 | Trimming twice is trimming once, and short printable output is unchanged. |
| Outcome.Compare | util/test/sub_test.py:1099-1130 | Success exactly when the diff is 0. The `.bad` file is consulted exactly for a failing future or suppressed test that has a readable one. The log is removed on success or on a clean `.bad` match. |
| Outcome.CompareProperties | util/test/sub_test.py:1099-1130 | A `.bad` match is never a success. A test with neither a future nor a suppress label never consults `.bad`. The log stays exactly when nothing matched. |
| Outcome.CompileOutcomeOf | util/test/sub_test.py:999-1130 | Status 222 from `timedexec` is a timeout. A successful compile of an executed test goes on to execution. Otherwise the output is compared with the compile good file, or reported missing when that file is unusable. |
| Outcome.CompileSuccessIff | util/test/sub_test.py:1052-1130 | A compile is reported a success exactly when it was not killed, is not followed by an execution, has a usable good file, and its output matched. |
| Outcome.LauncherRun | util/test/sub_test.py:1394-1402 | Under a launcher timeout, a run is a timeout exactly when the launcher reports a walltime kill. It carries an error exactly when the launcher reported anything. |
| Outcome.ExecOutcomeOf | util/test/sub_test.py:1514-1604 | A timeout or a launcher error is never compared. A performance run goes to the performance tools. Otherwise the output is compared with the exec good file, or reported missing when that file is unusable. |
| Outcome.TimedExecSuccessIff | util/test/sub_test.py:1413-1590 | Under `timedexec`, a run is a success exactly when its status is not 222, it is not a performance run, its good file is usable and its output matched. The program's own exit status does not matter. |
| Outcome.LauncherReportsNotCompared | util/test/sub_test.py:1394-1514 | Any launcher report prevents the comparison, and only the walltime report counts as a timeout. |

## Left out

- Running programs is left out, and its results are inputs:
  - the compiler, the program, `timedexec`, the launcher, `diff` and the `.skipif` scripts (`runSkipIf`, `SuckOutputWithTimeout`, `KillProc`, `DiffFiles`, `DiffBadFiles`);
  - the `PRECOMP`/`PREDIFF`/`PREEXEC` hooks and their per-test forms;
  - `cleanup`, `which`.
- The launcher's regular-expression matches are inputs (`LauncherReport`), because Python's regular-expression engine is not modelled.
- `os.path.expandvars` in `ReadFileWithComments` is treated as the identity, because the process environment is not modelled.
- Logging, messages and the wall clock are left out. So are the elapsed-time reports and `CHPL_TEST_*` lookups other than the ones that are parameters.
- The performance path after a run (`computePerfStats`, `.perfkeys`, graph files, `GetTimer`/`.perftimeexec`) is left out. The model only says a performance run is not compared.
- The scan's `.catfiles`, `.lastcompopts`, `.lastexecopts`, `.precomp`, `.prediff`, `.preexec`, and the `.stdin` file used as input are left out, because they only feed the invocations above. The model still takes their branches first, so the branch order is kept.
- The `noperf` skip of a performance test without `.perfkeys`/`.perfexecopts` (lines 634-637) is left out.
- The chpldoc and chpl-ipe compiler switches and valgrind are left out.
- The compile timeout (twice the execution timeout, line 993) is left out. It is only passed to `timedexec` (line 1000) and, on the unused direct path, to `SuckOutputWithTimeout` (line 1021).
- Outcome.CompileOutcomeOf: line 241 sets `useTimedExec = True`, so compilation and execution always go through `timedexec` when no launcher timeout is used. The direct paths (lines 1016-1032 and 1449-1467) cannot be reached and are not modelled.
- The machine name is an input (`Config.machine`). The driver sets it to `MachineName` of the host name (line 249); reading the host name is left out.
- Python 2's `string.printable` is taken as the ASCII printable set (32–126) plus whitespace (9–13), as in the C locale.
- Formatting.ShellEscape: states only the length bound and the round trip and escaping lemmas, not the result character by character.
- Formatting.ShellEscapeCommand: states only the length bound and the round trip and escaping lemmas, not the result character by character.
- `runtime/comm-armci/chpl_cfg_comm.c`, `compiler/passes/scopeResolve.cpp` and `compiler/traversals/transformLetExprs.cpp` are not part of this model; they are unrelated to the driver.

## Findings

| source | as written | input that shows it | evidently intended | confidence | as-written member | corrected member |
|---|---|---|---|---|---|---|
| util/test/sub_test.py:849-866 | A readable `foo.compopts` with no option line leaves `compoptslist` empty. The warning says the file is ignored, but the empty list makes the cross product empty, so the test is never compiled, run or reported. | `foo.compopts` holding only `# comment` | The file is ignored, and the test keeps the one blank option. | not executed | Variants.TestCompoptsAsWritten, Variants.EmptyCompoptsFileDropsTest | Variants.TestCompopts |
