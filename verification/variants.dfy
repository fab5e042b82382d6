/** Variant expansion: which compile options and execution options a test
    runs with, how the variants are numbered, what their output logs are
    called, which good file each one names explicitly, and the
    `(compopts: N, execopts: M)` label that identifies a failing variant.
 */
module Variants {
  import opened Wrappers
  import opened Strings
  import opened Decimal
  import opened ConfigFiles

  // ---------------------------------------------------------------------
  // Option lists
  // ---------------------------------------------------------------------

  /** The blank option that stands for "no options". */
  const Blank: string := " "

  /** `s == Blank`, spelled out character-wise so that the solver does not
      unfold functions of `s` as if it were a literal. */
  predicate IsBlankOption(s: string) {
    |s| == 1 && s[0] == ' '
  }

  /** The directory-wide compile options: `./PERFCOMPOPTS` in performance
      mode when it is readable, else `./COMPOPTS` when readable (comment
      lines may be indented), else one blank option. `None` is a file that
      cannot be read. */
  function DirectoryCompopts(perftest: bool, perfFile: Option<seq<string>>, file: Option<seq<string>>): (r: seq<string>)
    ensures DirListShape(r)
    ensures perftest && perfFile.Some? ==> r == ReadFileWithComments(perfFile.value, true)
    ensures (!perftest || perfFile.None?) && file.Some? ==> r == ReadFileWithComments(file.value, true)
    ensures (!perftest || perfFile.None?) && file.None? ==> r == [Blank]
  {
    if perftest && perfFile.Some? then ReadFileWithComments(perfFile.value, true)
    else if file.Some? then ReadFileWithComments(file.value, true)
    else [Blank]
  }

  /** Outside performance mode `./PERFCOMPOPTS` is never read, and in
      performance mode without it `./COMPOPTS` is used as in normal mode. */
  lemma DirectoryCompoptsFallback(perfFile: Option<seq<string>>, file: Option<seq<string>>)
    ensures DirectoryCompopts(false, perfFile, file) == DirectoryCompopts(false, None, file)
    ensures DirectoryCompopts(true, None, file) == DirectoryCompopts(false, perfFile, file)
  {
  }

  /** A test's own compile options AS WRITTEN: `foo.chpldocopts` for a
      documentation test when readable, else `foo.compopts` when readable
      (only a `#` in the first column starts a comment), else one blank
      option. A readable file without any option line yields the EMPTY list,
      although the driver's warning says the file is ignored. */
  function TestCompoptsAsWritten(isChpldoc: bool, chpldocFile: Option<seq<string>>, file: Option<seq<string>>): (r: seq<string>)
    ensures TestListShape(r)
    ensures var used := if isChpldoc && chpldocFile.Some? then chpldocFile else file;
            r == [] <==> used.Some? && ReadFileWithComments(used.value, false) == []
  {
    if isChpldoc && chpldocFile.Some? then ReadFileWithComments(chpldocFile.value, false)
    else if file.Some? then ReadFileWithComments(file.value, false)
    else [Blank]
  }

  /** An option file without any option line leaves the test with no compile
      option at all, so the cross product is empty and the test is never
      compiled, run or reported. */
  lemma EmptyCompoptsFileDropsTest(dir: seq<string>, lines: seq<string>)
    requires ReadFileWithComments(lines, false) == []
    ensures TestCompoptsAsWritten(false, None, Some(lines)) == []
    ensures CompoptsProduct(dir, TestCompoptsAsWritten(false, None, Some(lines))) == []
  {
    ProductLength(dir, []);
  }

  /** A test's own compile options as the driver's warning describes them:
      an option file without any option line is ignored, so the test keeps
      the one blank option. The rest of the model uses this definition. */
  function TestCompopts(isChpldoc: bool, chpldocFile: Option<seq<string>>, file: Option<seq<string>>): (r: seq<string>)
    ensures |r| >= 1
    ensures TestCompoptsAsWritten(isChpldoc, chpldocFile, file) != [] ==> r == TestCompoptsAsWritten(isChpldoc, chpldocFile, file)
    ensures TestCompoptsAsWritten(isChpldoc, chpldocFile, file) == [] ==> r == [Blank]
  {
    var read := TestCompoptsAsWritten(isChpldoc, chpldocFile, file);
    if read == [] then [Blank] else read
  }

  /** A test's execution options: the lines of `foo.execopts` (first-column
      comments only), or one blank option when the file is missing or has no
      option line. */
  function ExecOptsList(file: Option<seq<string>>): (r: seq<string>)
    ensures |r| >= 1
    ensures r == [Blank] || (file.Some? && r == ReadFileWithComments(file.value, false))
    ensures file.None? ==> r == [Blank]
    ensures file.Some? && ReadFileWithComments(file.value, false) != [] ==> r == ReadFileWithComments(file.value, false)
    ensures TestListShape(r)
  {
    var read := if file.Some? then ReadFileWithComments(file.value, false) else [];
    if |read| == 0 then [Blank] else read
  }

  /** The shapes of option lists the driver produces: one blank option, or
      option lines of a comment file. */
  predicate DirListShape(xs: seq<string>) {
    xs == [Blank] || forall k :: 0 <= k < |xs| ==> Kept(xs[k], true) && RStrip(xs[k]) == xs[k]
  }

  predicate TestListShape(xs: seq<string>) {
    xs == [Blank] || forall k :: 0 <= k < |xs| ==> Kept(xs[k], false) && RStrip(xs[k]) == xs[k]
  }

  lemma {:induction false} OptionListShapes(perftest: bool, perfFile: Option<seq<string>>, file: Option<seq<string>>,
                           isChpldoc: bool, chpldocFile: Option<seq<string>>, testFile: Option<seq<string>>)
    ensures DirListShape(DirectoryCompopts(perftest, perfFile, file))
    ensures TestListShape(TestCompopts(isChpldoc, chpldocFile, testFile))
    ensures TestListShape(ExecOptsList(testFile))
  {
  }

  // ---------------------------------------------------------------------
  // Compile option cross product
  // ---------------------------------------------------------------------

  /** One pairing of a directory option with a test option, joined by a space;
      a pairing that is all whitespace becomes the single blank option. */
  function JoinPair(d: string, t: string): (u: string)
    ensures IsBlank(d + " " + t) ==> u == Blank
    ensures !IsBlank(d + " " + t) ==> u == d + " " + t
  {
    var u := d + " " + t;
    if IsBlank(u) then Blank else u
  }

  /** Collapsing a blank pairing changes nothing `strip()` can see: the
      joined option and the pairing strip to the same text. */
  lemma JoinPairStrip(d: string, t: string)
    ensures Strip(JoinPair(d, t)) == Strip(d + " " + t)
    ensures IsBlank(JoinPair(d, t)) <==> IsBlank(d + " " + t)
  {
    if IsBlank(d + " " + t) {
      assert IsBlank(Blank);
    }
  }

  function Row(d: string, test: seq<string>): (r: seq<string>)
    ensures |r| == |test|
    ensures forall j :: 0 <= j < |test| ==> r[j] == JoinPair(d, test[j])
  {
    seq(|test|, j requires 0 <= j < |test| => JoinPair(d, test[j]))
  }

  /** The compile options of a test: every directory option with every test
      option, directory-major. */
  function CompoptsProduct(dir: seq<string>, test: seq<string>): (r: seq<string>)
    ensures |test| == 0 ==> r == []
  {
    if |dir| == 0 then [] else Row(dir[0], test) + CompoptsProduct(dir[1..], test)
  }

  /** The product has |dir|·|test| entries. */
  lemma {:induction false} ProductLength(dir: seq<string>, test: seq<string>)
    ensures |CompoptsProduct(dir, test)| == |dir| * |test|
  {
    if |dir| > 0 {
      ProductLength(dir[1..], test);
      assert |dir| * |test| == |test| + (|dir| - 1) * |test|;
    }
  }

  /** Directory-major order: entry `i·|test| + j` of the product pairs
      directory option `i` with test option `j`. */
  lemma ProductAt(dir: seq<string>, test: seq<string>, i: nat, j: nat)
    requires i < |dir| && j < |test|
    ensures i * |test| + j < |CompoptsProduct(dir, test)|
    ensures CompoptsProduct(dir, test)[i * |test| + j] == JoinPair(dir[i], test[j])
  {
    ProductRowAt(dir, test, i, j);
  }

  /** The same, row by row: entry `i·|test| + j` is entry `j` of row `i`. */
  lemma ProductRowAt(dir: seq<string>, test: seq<string>, i: nat, j: nat)
    requires i < |dir| && j < |test|
    ensures i * |test| + j < |CompoptsProduct(dir, test)|
    ensures CompoptsProduct(dir, test)[i * |test| + j] == Row(dir[i], test)[j]
  {
    ProductSplitAt(dir, test, i);
    var p, r, q := CompoptsProduct(dir[..i], test), Row(dir[i], test), CompoptsProduct(dir[i + 1..], test);
    IndexInMiddle(p, r, q, j, i * |test| + j);
  }

  lemma IndexInMiddle<T>(p: seq<T>, r: seq<T>, q: seq<T>, j: nat, k: int)
    requires j < |r| && k == |p| + j
    ensures k < |p + (r + q)| && (p + (r + q))[k] == r[j]
  {
  }

  lemma IndexInFront<T>(a: seq<T>, b: seq<T>, k: nat)
    requires k < |a|
    ensures (a + b)[k] == a[k]
  {
  }

  lemma IndexBehind<T>(a: seq<T>, b: seq<T>, k: nat)
    requires |a| <= k < |a + b|
    ensures (a + b)[k] == b[k - |a|]
  {
  }

  /** The product around row `i`: the rows before it, which fill `i·|test|`
      entries, row `i` itself, and the rows after it. */
  lemma ProductSplitAt(dir: seq<string>, test: seq<string>, i: nat)
    requires i < |dir|
    ensures CompoptsProduct(dir, test)
            == CompoptsProduct(dir[..i], test) + (Row(dir[i], test) + CompoptsProduct(dir[i + 1..], test))
    ensures |CompoptsProduct(dir[..i], test)| == i * |test|
  {
    var a, b := dir[..i], dir[i..];
    assert dir == a + b;
    ProductAppend(a, b, test);
    ProductLength(a, test);
    assert b[0] == dir[i] && b[1..] == dir[i + 1..];
  }

  /** The product of a concatenation of directory options is the
      concatenation of the products. */
  lemma {:induction false} ProductAppend(a: seq<string>, b: seq<string>, test: seq<string>)
    ensures CompoptsProduct(a + b, test) == CompoptsProduct(a, test) + CompoptsProduct(b, test)
  {
    if |a| == 0 {
      assert a + b == b;
    } else {
      assert (a + b)[1..] == a[1..] + b;
      ProductAppend(a[1..], b, test);
    }
  }

  /** Conversely, every entry of the product pairs some directory option
      with some test option. */
  lemma {:induction false} ProductMember(dir: seq<string>, test: seq<string>, k: nat) returns (i: nat, j: nat)
    requires k < |CompoptsProduct(dir, test)|
    ensures i < |dir| && j < |test|
    ensures CompoptsProduct(dir, test)[k] == JoinPair(dir[i], test[j])
  {
    if k < |test| {
      i, j := 0, k;
    } else {
      var i', j' := ProductMember(dir[1..], test, k - |test|);
      i, j := i' + 1, j';
      assert dir[1..][i'] == dir[i];
    }
  }

  /** With both sides at their default the product is the single blank
      option. */
  lemma DefaultProduct()
    ensures CompoptsProduct([Blank], [Blank]) == [Blank]
  {
    assert IsBlank(Blank + " " + Blank);
    assert CompoptsProduct([Blank][1..], [Blank]) == [];
  }

  // ---------------------------------------------------------------------
  // Compile variants
  // ---------------------------------------------------------------------

  /** A compile option entry is cut at its first `#`: the options are the
      text before it, and the driver keeps the remainder as the string
      `' #' + rest` (its `clist`). */
  datatype CompileEntry = CompileEntry(opts: string, clist: Option<string>)

  function SplitCompileEntry(entry: string): (e: CompileEntry)
    ensures '#' !in entry ==> e == CompileEntry(entry, None)
    ensures '#' in entry ==> e.clist.Some? && '#' !in e.opts && StartsWith(entry, e.opts + "#")
  {
    var parts := Split(entry, '#');
    if |parts| >= 2 then
      JoinSplit(entry, '#');
      assert Join(parts, '#') == parts[0] + "#" + Join(parts[1..], '#');
      assert entry[..|parts[0]| + 1] == parts[0] + "#";
      CompileEntry(parts[0], Some(" #" + Join(parts[1..], '#')))
    else CompileEntry(entry, None)
  }

  /** The explicit good file named by a compile entry: the stripped second
      `#`-piece of the kept remainder. */
  function CompileExplicitGood(e: CompileEntry): Option<string>
  {
    match e.clist
    case None => None
    case Some(c) =>
      var pieces := Split(c, '#');
      if |pieces| > 1 then Some(Strip(pieces[1])) else None
  }

  /** What the remainder string encodes: the good file a compile entry names
      is the stripped text between its first and its second `#`. */
  lemma {:induction false} CompileExplicitGoodSpec(entry: string)
    ensures '#' !in entry ==> CompileExplicitGood(SplitCompileEntry(entry)) == None
    ensures '#' in entry ==> CompileExplicitGood(SplitCompileEntry(entry)) == Some(Strip(Split(entry, '#')[1]))
  {
    var parts := Split(entry, '#');
    if |parts| >= 2 {
      assert SplitCompileEntry(entry).clist == Some(" #" + Join(parts[1..], '#'));
      RemainderPieces(parts);
    }
  }

  /** The remainder `' #' + rest`, kept after the first piece, splits into a
      blank piece and the remaining pieces. */
  lemma RemainderPieces(parts: seq<string>)
    requires |parts| >= 2
    requires forall k :: 0 <= k < |parts| ==> '#' !in parts[k]
    ensures Split(" #" + Join(parts[1..], '#'), '#') == [" "] + parts[1..]
  {
    var tail := parts[1..];
    assert forall k :: 0 <= k < |tail| ==> tail[k] == parts[k + 1];
    SplitJoin(tail, '#');
    SplitAtFirst(" ", '#', Join(tail, '#'));
    assert " #" + Join(tail, '#') == " " + ['#'] + Join(tail, '#');
  }

  datatype CompileVariant = CompileVariant(opts: string, num: nat, explicitGood: Option<string>, complog: string)

  /** The compiler output log of a variant: unnumbered for the blank
      option, `<name>.<n>.comp.out.tmp` otherwise. */
  function CompLogName(execname: string, opts: string, num: nat): (log: string)
    ensures StartsWith(log, execname) && EndsWith(log, ".comp.out.tmp")
    ensures IsBlankOption(opts) <==> |log| == |execname| + 13
  {
    if IsBlankOption(opts) then execname + ".comp.out.tmp"
    else execname + "." + NatToString(num) + ".comp.out.tmp"
  }

  /** The compile loop: the counter `compoptsnum` advances for every entry
      whose options (before any `#`) are not the blank option; a blank entry
      keeps the current count. */
  function CompileVariantsFrom(execname: string, entries: seq<string>, prev: nat): (r: seq<CompileVariant>)
    ensures |r| == |entries|
  {
    if |entries| == 0 then []
    else
      var e := SplitCompileEntry(entries[0]);
      var num := if IsBlankOption(e.opts) then prev else prev + 1;
      var rest := CompileVariantsFrom(execname, entries[1..], num);
      [CompileVariant(e.opts, num, CompileExplicitGood(e), CompLogName(execname, e.opts, num))] + rest
  }

  /** One variant per entry, in order: it carries its entry's options and
      explicit good file, a number no larger than its position plus one, and
      the log that number names. */
  function CompileVariants(execname: string, compopts: seq<string>): (vs: seq<CompileVariant>)
    ensures |vs| == |compopts|
    ensures forall k :: 0 <= k < |vs| ==>
              && vs[k].opts == SplitCompileEntry(compopts[k]).opts
              && vs[k].explicitGood == CompileExplicitGood(SplitCompileEntry(compopts[k]))
              && vs[k].num <= k + 1
              && vs[k].complog == CompLogName(execname, vs[k].opts, vs[k].num)
  {
    var vs := CompileVariantsFrom(execname, compopts, 0);
    assert forall k :: 0 <= k < |vs| ==>
              && vs[k].opts == SplitCompileEntry(compopts[k]).opts
              && vs[k].explicitGood == CompileExplicitGood(SplitCompileEntry(compopts[k]))
              && vs[k].num <= k + 1
              && vs[k].complog == CompLogName(execname, vs[k].opts, vs[k].num)
    by {
      forall k | 0 <= k < |vs| {
        CompileVariantAt(execname, compopts, 0, k);
      }
    }
    vs
  }

  /** Every compile variant carries its own entry's options and good file,
      a count no smaller than the starting one, and the log that count
      names. */
  lemma {:induction false} CompileVariantAt(execname: string, entries: seq<string>, prev: nat, k: nat)
    requires k < |entries|
    ensures var v := CompileVariantsFrom(execname, entries, prev)[k];
            && v.opts == SplitCompileEntry(entries[k]).opts
            && v.explicitGood == CompileExplicitGood(SplitCompileEntry(entries[k]))
            && v.complog == CompLogName(execname, v.opts, v.num)
            && prev <= v.num <= prev + k + 1
  {
    if k > 0 {
      var e := SplitCompileEntry(entries[0]);
      var num := if IsBlankOption(e.opts) then prev else prev + 1;
      var rest := CompileVariantsFrom(execname, entries[1..], num);
      assert CompileVariantsFrom(execname, entries, prev)[k] == rest[k - 1];
      assert entries[1..][k - 1] == entries[k];
      CompileVariantAt(execname, entries[1..], num, k - 1);
    }
  }

  /** When no entry is the blank option the variants are numbered 1, 2, ...
      in list order (after `prev`). */
  lemma {:induction false} NumberedInOrder(execname: string, entries: seq<string>, prev: nat, k: nat)
    requires forall i :: 0 <= i < |entries| ==> !IsBlankOption(SplitCompileEntry(entries[i]).opts)
    requires k < |entries|
    ensures CompileVariantsFrom(execname, entries, prev)[k].num == prev + k + 1
  {
    if k > 0 {
      assert !IsBlankOption(SplitCompileEntry(entries[0]).opts);
      NumberedInOrder(execname, entries[1..], prev + 1, k - 1);
    }
  }

  /** The first `#`-piece of a string is a prefix that stops at the first
      separator. */
  lemma {:induction false} FirstPieceIsPrefix(s: string, sep: char)
    ensures StartsWith(s, Split(s, sep)[0])
    ensures |Split(s, sep)[0]| < |s| ==> s[|Split(s, sep)[0]|] == sep
  {
    JoinSplit(s, sep);
    var parts := Split(s, sep);
    if |parts| > 1 {
      assert Join(parts, sep) == parts[0] + [sep] + Join(parts[1..], sep);
      assert s[..|parts[0]|] == parts[0];
    }
  }

  /** An entry whose first two characters are not `#` has options of at
      least two characters, so they are never the blank option. */
  lemma {:induction false} LongOpts(entry: string)
    requires |entry| >= 2 && entry[0] != '#' && entry[1] != '#'
    ensures !IsBlankOption(SplitCompileEntry(entry).opts)
  {
    FirstPieceIsPrefix(entry, '#');
  }

  /** A directory option (an indentation-insensitive comment file line) never
      begins with a blank followed by `#`. */
  lemma {:induction false} DirOptionHead(d: string)
    requires Kept(d, true) && RStrip(d) == d
    ensures |d| >= 1 && d[0] != '#'
    ensures |d| >= 2 && d[0] == ' ' ==> d[1] != '#'
  {
    if |d| >= 2 && d[0] == ' ' && !IsSpace(d[1]) {
      assert LStrip(d) == LStrip(d[1..]) == d[1..];
    }
  }

  /** An entry that starts with a non-blank character other than `#` has
      non-blank options. */
  lemma {:induction false} SolidHead(u: string)
    requires |u| >= 1 && u[0] != ' ' && u[0] != '#'
    ensures !IsBlankOption(SplitCompileEntry(u).opts)
  {
    FirstPieceIsPrefix(u, '#');
  }

  /** Every entry of the product of option lists of the driver's shapes
      either is the product of the two defaults, or has non-blank options:
      the blank option occurs only as the collapsed default. */
  lemma {:induction false} ProductEntryNotBlank(d: string, t: string)
    requires IsBlankOption(d) || (Kept(d, true) && RStrip(d) == d)
    requires IsBlankOption(t) || (Kept(t, false) && RStrip(t) == t)
    requires !(IsBlankOption(d) && IsBlankOption(t))
    ensures !IsBlankOption(SplitCompileEntry(JoinPair(d, t)).opts)
  {
    var u := d + " " + t;
    if IsBlankOption(d) {
      var k :| 0 <= k < |t| && !IsSpace(t[k]);
      assert u[2 + k] == t[k];
      assert !IsBlank(u);
      assert t[0] != '#';
      assert u[0] == ' ' && u[1] == ' ';
      LongOpts(u);
    } else {
      DirOptionHead(d);
      var k :| 0 <= k < |d| && !IsSpace(d[k]);
      assert u[k] == d[k];
      assert !IsBlank(u);
      assert u[0] == d[0];
      if d[0] == ' ' {
        assert |d| >= 2;
        assert u[1] == d[1];
        LongOpts(u);
      } else {
        SolidHead(u);
      }
    }
  }

  /** Compile variant numbering, as the driver's option files make it:
      either the test has exactly the one blank option, which is
      unnumbered (count 0, `<name>.comp.out.tmp`), or every variant is
      numbered 1, 2, ... in directory-major order. */
  lemma CompileNumbering(execname: string, dir: seq<string>, test: seq<string>, k: nat)
    requires DirListShape(dir) && TestListShape(test)
    requires k < |CompoptsProduct(dir, test)|
    ensures var vs := CompileVariants(execname, CompoptsProduct(dir, test));
            || (dir == [Blank] && test == [Blank] && vs == [CompileVariant(Blank, 0, None, execname + ".comp.out.tmp")])
            || (vs[k].num == k + 1 && vs[k].complog == execname + "." + NatToString(k + 1) + ".comp.out.tmp")
  {
    var p := CompoptsProduct(dir, test);
    if dir == [Blank] && test == [Blank] {
      DefaultProduct();
      assert Split(Blank, '#') == [Blank];
      assert CompileVariantsFrom(execname, p[1..], 0) == [];
    } else {
      forall m | 0 <= m < |p|
        ensures !IsBlankOption(SplitCompileEntry(p[m]).opts)
      {
        var i, j := ProductMember(dir, test, m);
        ProductEntryNotBlank(dir[i], test[j]);
      }
      NumberedInOrder(execname, p, 0, k);
      CompileVariantAt(execname, p, 0, k);
    }
  }

  // ---------------------------------------------------------------------
  // Execution variants and log names
  // ---------------------------------------------------------------------

  /** `get_exec_log_name`: `<name>.exec.out.tmp` without counts,
      `<name>.<c>-<e>.exec.out.tmp` with them. */
  function ExecLogName(execname: string, counts: Option<(nat, nat)>): (log: string)
    ensures StartsWith(log, execname) && EndsWith(log, ".exec.out.tmp")
    ensures counts.None? <==> |log| == |execname| + 13
    ensures counts.None? ==> log == execname + ".exec.out.tmp"
    ensures counts.Some? ==>
              log == execname + "." + NatToString(counts.value.0) + "-" + NatToString(counts.value.1) + ".exec.out.tmp"
  {
    var suffix := ".exec.out.tmp";
    if counts.None? then execname + suffix
    else execname + "." + NatToString(counts.value.0) + "-" + NatToString(counts.value.1) + suffix
  }

  /** The numbered and unnumbered forms never coincide, and the numbered
      form tells the counts apart. */
  lemma ExecLogNamesDistinct(execname: string, c: nat, e: nat, c': nat, e': nat)
    ensures ExecLogName(execname, Some((c, e))) != ExecLogName(execname, None)
    ensures ExecLogName(execname, Some((c, e))) == ExecLogName(execname, Some((c', e'))) ==> c == c' && e == e'
  {
    var a := ExecLogName(execname, Some((c, e)));
    var b := ExecLogName(execname, None);
    assert |a| > |b|;
    if a == ExecLogName(execname, Some((c', e'))) {
      var x := NatToString(c) + "-" + NatToString(e);
      var y := NatToString(c') + "-" + NatToString(e');
      assert a == execname + "." + x + ".exec.out.tmp";
      assert a == execname + "." + y + ".exec.out.tmp";
      assert x == a[|execname| + 1..|a| - 13];
      assert y == a[|execname| + 1..|a| - 13];
      DashSplit(NatToString(c), NatToString(e), NatToString(c'), NatToString(e'));
      NatToStringInjective(c, c');
      NatToStringInjective(e, e');
    }
  }

  /** Two numerals joined by a dash are split back apart uniquely. */
  lemma {:induction false} DashSplit(a: string, b: string, a': string, b': string)
    requires AllDigits(a) && AllDigits(b) && AllDigits(a') && AllDigits(b')
    requires a + "-" + b == a' + "-" + b'
    ensures a == a' && b == b'
  {
    var s := a + "-" + b;
    DashPosition(a, b);
    DashPosition(a', b');
    assert |a| == |a'|;
    assert a == s[..|a|] == a';
    assert b == s[|a| + 1..] == b';
  }

  /** In a numeral followed by a dash, the first dash is the one after the
      numeral. */
  lemma DashPosition(a: string, b: string)
    requires AllDigits(a)
    ensures (a + "-" + b)[|a|] == '-'
    ensures forall i :: 0 <= i < |a| ==> (a + "-" + b)[i] != '-'
  {
  }

  /** One run of a compiled test: its options, its count, its good file
      (or the crash its entry causes) and the counts its log name carries
      (`None` for the unnumbered log). */
  datatype ExecVariant = ExecVariant(opts: string, num: nat, explicitGood: Result<Option<string>>, logCounts: Option<(nat, nat)>)

  /** `' -nl <n>'`, appended to every execution option unless the locale
      count is 0, the communication layer is `none`, or the test is a C
      test. */
  function NumLocalesOpts(numlocales: int, comm: string, isCTest: bool): (r: Option<string>)
    ensures r.Some? <==> numlocales != 0 && comm != "none" && !isCTest
    ensures r.Some? ==> r.value == " -nl " + IntToString(numlocales)
    ensures r.Some? ==> StartsWith(r.value, " -nl ") && ParseInt(r.value[5..]) == Some(numlocales)
  {
    if numlocales == 0 || comm == "none" || isCTest then None
    else
      var o := " -nl " + IntToString(numlocales);
      ParseIntToString(numlocales);
      assert o[5..] == IntToString(numlocales);
      Some(o)
  }

  /** The options and good file of one execution entry: options are the
      stripped text before the first `#` (plus the locale count), and an
      entry with a `#` names its good file by the first token after it; an
      entry without `#` inherits the compile entry's good file. A `#` with
      nothing after it raises an IndexError. */
  function ExecEntry(entry: string, explicitComp: Option<string>, numLoc: Option<string>): (r: (string, Result<Option<string>>))
    ensures '#' !in entry ==> r.1 == Ok(explicitComp)
    ensures '#' in entry ==> (r.1.Err? <==> IsBlank(Split(entry, '#')[1]))
    ensures '#' in entry && r.1.Ok? ==>
              r.1.value.Some? && |r.1.value.value| > 0 && forall i :: 0 <= i < |r.1.value.value| ==> !IsSpace(r.1.value.value[i])
    ensures numLoc.None? ==> r.0 == Strip(Split(entry, '#')[0])
    ensures numLoc.Some? ==> r.0 == Strip(Split(entry, '#')[0]) + numLoc.value
  {
    var tlist := Split(entry, '#');
    var opts := Strip(tlist[0]) + (if numLoc.Some? then numLoc.value else "");
    var good :=
      if |tlist| > 1 then
        match FirstToken(tlist[1])
        case None => Err(IndexError)
        case Some(tok) => Ok(Some(tok))
      else Ok(explicitComp);
    (opts, good)
  }

  /** An execution entry's good file: inherited without a `#`; after a `#`,
      the first whitespace-separated word up to the next `#`, and a crash
      when there is no such word. Its options start with the stripped text
      before the `#`. */
  lemma ExecEntrySpec(entry: string, explicitComp: Option<string>, numLoc: Option<string>)
    ensures var r := ExecEntry(entry, explicitComp, numLoc);
            && ('#' !in entry ==> r.1 == Ok(explicitComp))
            && ('#' in entry ==>
                  match FirstToken(Split(entry, '#')[1])
                  case None => r.1.Err?
                  case Some(tok) => r.1 == Ok(Some(tok)))
            && StartsWith(r.0, Strip(Split(entry, '#')[0]))
            && (numLoc.None? ==> r.0 == Strip(Split(entry, '#')[0]))
  {
  }

  /** The counter `execoptsnum` of the execution loop for one compile
      variant, entry by entry. When the test has exactly one compile and one
      execution option it stays 0; otherwise it advances for every entry
      that is not the blank option. */
  function ExecCounts(onlyOne: bool, entries: seq<string>, prev: nat): (r: seq<nat>)
    ensures |r| == |entries|
    ensures forall k :: 0 <= k < |r| ==> prev <= r[k] <= prev + k + 1
  {
    if |entries| == 0 then []
    else
      var num := if onlyOne || IsBlankOption(entries[0]) then prev else prev + 1;
      [num] + ExecCounts(onlyOne, entries[1..], num)
  }

  /** The runs of one compile variant: each entry's options and good file,
      its count, and its log, which carries `<compile count>-<execution
      count>` unless the test has exactly one compile and one execution
      option. */
  function ExecVariants(execname: string, compNum: nat, compCount: nat, execopts: seq<string>,
                        explicitComp: Option<string>, numLoc: Option<string>): (vs: seq<ExecVariant>)
    ensures |vs| == |execopts|
    ensures forall k :: 0 <= k < |vs| ==>
              && (vs[k].opts, vs[k].explicitGood) == ExecEntry(execopts[k], explicitComp, numLoc)
              && vs[k].num <= k + 1
              && (vs[k].logCounts.None? <==> compCount == 1 && |execopts| == 1)
              && (vs[k].logCounts.Some? ==> vs[k].logCounts.value == (compNum, vs[k].num))
  {
    var onlyOne := compCount == 1 && |execopts| == 1;
    var nums := ExecCounts(onlyOne, execopts, 0);
    seq(|execopts|, k requires 0 <= k < |execopts| =>
      var e := ExecEntry(execopts[k], explicitComp, numLoc);
      ExecVariant(e.0, nums[k], e.1, if onlyOne then None else Some((compNum, nums[k]))))
  }

  /** With a single compile and execution option the count never moves. */
  lemma {:induction false} CountsStay(entries: seq<string>, prev: nat, k: nat)
    requires k < |entries|
    ensures ExecCounts(true, entries, prev)[k] == prev
  {
    if k > 0 {
      CountsStay(entries[1..], prev, k - 1);
    }
  }

  /** With no blank entry, the runs are numbered 1, 2, ... in order (after
      `prev`). */
  lemma {:induction false} ExecNumberedInOrder(entries: seq<string>, prev: nat, k: nat)
    requires forall i :: 0 <= i < |entries| ==> !IsBlankOption(entries[i])
    requires k < |entries|
    ensures ExecCounts(false, entries, prev)[k] == prev + k + 1
  {
    if k > 0 {
      assert !IsBlankOption(entries[0]);
      ExecNumberedInOrder(entries[1..], prev + 1, k - 1);
    }
  }

  /** The unnumbered log name is used if and only if the test has exactly
      one compile option and one execution option. */
  lemma ExecLogUnindexedIff(execname: string, compNum: nat, compCount: nat, execopts: seq<string>,
                            explicitComp: Option<string>, numLoc: Option<string>, k: nat)
    requires k < |execopts|
    ensures var vs := ExecVariants(execname, compNum, compCount, execopts, explicitComp, numLoc);
            ExecLogName(execname, vs[k].logCounts) == ExecLogName(execname, None) <==> compCount == 1 && |execopts| == 1
  {
    var vs := ExecVariants(execname, compNum, compCount, execopts, explicitComp, numLoc);
    if !(compCount == 1 && |execopts| == 1) {
      ExecLogNamesDistinct(execname, compNum, vs[k].num, 0, 0);
    }
  }

  /** With several execution options and none blank, the runs of one
      compile variant write pairwise distinct logs. */
  lemma ExecLogsDistinct(execname: string, compNum: nat, compCount: nat, execopts: seq<string>,
                         explicitComp: Option<string>, numLoc: Option<string>, i: nat, j: nat)
    requires |execopts| > 1
    requires forall k :: 0 <= k < |execopts| ==> !IsBlankOption(execopts[k])
    requires i < j < |execopts|
    ensures var vs := ExecVariants(execname, compNum, compCount, execopts, explicitComp, numLoc);
            ExecLogName(execname, vs[i].logCounts) != ExecLogName(execname, vs[j].logCounts)
  {
    var vs := ExecVariants(execname, compNum, compCount, execopts, explicitComp, numLoc);
    ExecVariantCounts(execname, compNum, compCount, execopts, explicitComp, numLoc, i);
    ExecVariantCounts(execname, compNum, compCount, execopts, explicitComp, numLoc, j);
    ExecNumberedInOrder(execopts, 0, i);
    ExecNumberedInOrder(execopts, 0, j);
    LogsDiffer(execname, vs[i].logCounts, vs[j].logCounts);
  }

  /** Counts that differ in the execution count name different logs. */
  lemma LogsDiffer(execname: string, a: Option<(nat, nat)>, b: Option<(nat, nat)>)
    requires a.Some? && b.Some? && a.value.1 != b.value.1
    ensures ExecLogName(execname, a) != ExecLogName(execname, b)
  {
    ExecLogNamesDistinct(execname, a.value.0, a.value.1, b.value.0, b.value.1);
  }

  /** The logs written before execution, one per expected run (the four
      cases of the driver), given by the counts each carries: none for a
      single compile and execution option, `<compNum>-1` (or `-0` for the
      blank option) for a single execution option, and `<compNum>-<i+1>`
      for the `i`-th of several, ... */
  function PrewrittenCounts(compNum: nat, compCount: nat, execopts: seq<string>): (cs: seq<Option<(nat, nat)>>)
    requires |execopts| >= 1
    ensures |cs| == |execopts|
  {
    if compCount == 1 && |execopts| == 1 then [None]
    else if compCount > 1 && |execopts| == 1 then
      [Some((compNum, if IsBlankOption(execopts[0]) then 0 else 1))]
    else seq(|execopts|, i requires 0 <= i < |execopts| => Some((compNum, i + 1)))
  }

  function PrewrittenExecLogs(execname: string, compNum: nat, compCount: nat, execopts: seq<string>): (logs: seq<string>)
    requires |execopts| >= 1
    ensures |logs| == |execopts|
    ensures forall i :: 0 <= i < |logs| ==> StartsWith(logs[i], execname) && EndsWith(logs[i], ".exec.out.tmp")
  {
    var cs := PrewrittenCounts(compNum, compCount, execopts);
    seq(|cs|, i requires 0 <= i < |cs| => ExecLogName(execname, cs[i]))
  }

  /** The log counts of the runs, read off the execution counter. */
  lemma ExecVariantCounts(execname: string, compNum: nat, compCount: nat, execopts: seq<string>,
                          explicitComp: Option<string>, numLoc: Option<string>, i: nat)
    requires i < |execopts|
    ensures var onlyOne := compCount == 1 && |execopts| == 1;
            var vs := ExecVariants(execname, compNum, compCount, execopts, explicitComp, numLoc);
            vs[i].logCounts == if onlyOne then None else Some((compNum, ExecCounts(onlyOne, execopts, 0)[i]))
  {
  }

  /** The prewritten log of entry `i` carries the count the execution
      counter gives that entry. */
  lemma PrewrittenLogCounts(compNum: nat, compCount: nat, execopts: seq<string>, i: nat)
    requires compCount >= 1 && i < |execopts|
    requires (|execopts| == 1 && IsBlankOption(execopts[0]))
             || forall k :: 0 <= k < |execopts| ==> !IsBlankOption(execopts[k])
    ensures var onlyOne := compCount == 1 && |execopts| == 1;
            PrewrittenCounts(compNum, compCount, execopts)[i]
            == if onlyOne then None else Some((compNum, ExecCounts(onlyOne, execopts, 0)[i]))
  {
    if compCount == 1 && |execopts| == 1 {
      assert PrewrittenCounts(compNum, compCount, execopts) == [None];
    } else if |execopts| == 1 {
      SingleExecCount(compNum, compCount, execopts);
    } else {
      SeveralExecCounts(compNum, compCount, execopts, i);
    }
  }

  lemma SingleExecCount(compNum: nat, compCount: nat, execopts: seq<string>)
    requires compCount > 1 && |execopts| == 1
    ensures PrewrittenCounts(compNum, compCount, execopts)[0] == Some((compNum, ExecCounts(false, execopts, 0)[0]))
  {
    SingleEntryCount(execopts);
  }

  lemma SeveralExecCounts(compNum: nat, compCount: nat, execopts: seq<string>, i: nat)
    requires |execopts| > 1 && i < |execopts|
    requires forall k :: 0 <= k < |execopts| ==> !IsBlankOption(execopts[k])
    ensures PrewrittenCounts(compNum, compCount, execopts)[i] == Some((compNum, ExecCounts(false, execopts, 0)[i]))
  {
    var n := ExecCounts(false, execopts, 0)[i];
    ExecNumberedInOrder(execopts, 0, i);
    assert n == i + 1;
    SeveralCounts(compNum, compCount, execopts, i);
  }

  lemma SeveralCounts(compNum: nat, compCount: nat, execopts: seq<string>, i: nat)
    requires |execopts| > 1 && i < |execopts|
    ensures PrewrittenCounts(compNum, compCount, execopts)[i] == Some((compNum, i + 1))
  {
  }

  /** A single entry is counted 1, or 0 when it is the blank option. */
  lemma SingleEntryCount(execopts: seq<string>)
    requires |execopts| == 1
    ensures ExecCounts(false, execopts, 0)[0] == if IsBlankOption(execopts[0]) then 0 else 1
  {
  }

  /** ... are exactly the logs the execution loop then uses, for the option
      lists the driver builds (one blank option or no blank option at
      all), so every run finds the compiler output waiting in its log. */
  lemma PrewrittenLogsMatchLoop(execname: string, compNum: nat, compCount: nat, execopts: seq<string>,
                                explicitComp: Option<string>, numLoc: Option<string>, i: nat)
    requires compCount >= 1 && i < |execopts|
    requires (|execopts| == 1 && IsBlankOption(execopts[0]))
             || forall k :: 0 <= k < |execopts| ==> !IsBlankOption(execopts[k])
    ensures var pre := PrewrittenExecLogs(execname, compNum, compCount, execopts);
            var vs := ExecVariants(execname, compNum, compCount, execopts, explicitComp, numLoc);
            |pre| == |vs| && pre[i] == ExecLogName(execname, vs[i].logCounts)
  {
    PrewrittenLogCounts(compNum, compCount, execopts, i);
    ExecVariantCounts(execname, compNum, compCount, execopts, explicitComp, numLoc, i);
  }

  /** No execution option file: one blank option; with a single compile
      option its log is the unnumbered one, its options are empty and it
      keeps the compile entry's good file. */
  lemma NoExecOptsFile(execname: string, compNum: nat, explicitComp: Option<string>)
    ensures ExecOptsList(None) == [Blank]
    ensures ExecVariants(execname, compNum, 1, ExecOptsList(None), explicitComp, None)
            == [ExecVariant("", 0, Ok(explicitComp), None)]
  {
    assert Split(Blank, '#') == [Blank];
    assert Strip(Blank) == "";
    assert Strip(Split(Blank, '#')[0]) + "" == "";
    assert ExecEntry(Blank, explicitComp, None) == ("", Ok(explicitComp));
    assert ExecCounts(true, [Blank], 0) == [0];
  }

  // ---------------------------------------------------------------------
  // Variant label
  // ---------------------------------------------------------------------

  /** Whether a count is printed: it must be non-zero and the test must
      have more than one option of that kind. */
  predicate Shows(num: nat, count: nat) {
    num != 0 && count > 1
  }

  /** The text between the parentheses of a variant label. */
  function VariationBody(comp: Option<nat>, exec: Option<nat>): string
  {
    (if comp.Some? then "compopts: " + NatToString(comp.value) else "")
    + (if comp.Some? && exec.Some? then ", " else "")
    + (if exec.Some? then "execopts: " + NatToString(exec.value) else "")
  }

  /** `printTestVariation`: `""`, or ` (compopts: N)`, ` (execopts: M)` or
      ` (compopts: N, execopts: M)`, written into failure messages so that
      the failing variant can be decoded later. */
  function PrintTestVariation(compNum: nat, compCount: nat, execNum: nat, execCount: nat): (r: string)
    ensures r == "" <==> !Shows(compNum, compCount) && !Shows(execNum, execCount)
  {
    var comp := if Shows(compNum, compCount) then Some(compNum) else None;
    var exec := if Shows(execNum, execCount) then Some(execNum) else None;
    if comp.None? && exec.None? then ""
    else " (" + VariationBody(comp, exec) + ")"
  }

  /** The longest prefix of decimal digits. */
  function TakeDigits(s: string): (d: string)
    ensures StartsWith(s, d) && AllDigits(d)
    ensures |d| == |s| || !IsDigit(s[|d|])
  {
    if |s| == 0 || !IsDigit(s[0]) then "" else [s[0]] + TakeDigits(s[1..])
  }

  lemma {:induction false} TakeDigitsOfNumeral(d: string, rest: string)
    requires AllDigits(d)
    requires rest == "" || !IsDigit(rest[0])
    ensures TakeDigits(d + rest) == d
  {
    if |d| > 0 {
      assert (d + rest)[1..] == d[1..] + rest;
      TakeDigitsOfNumeral(d[1..], rest);
    } else {
      assert d + rest == rest;
    }
  }

  /** Reads a count back from a label: `<key>: <digits>` at the head of `s`,
      with what follows it. */
  function ReadCount(s: string, key: string): Option<(nat, string)>
  {
    if StartsWith(s, key + ": ") then
      var rest := s[|key| + 2..];
      var d := TakeDigits(rest);
      if |d| == 0 then None else Some((DigitsValue(d), rest[|d|..]))
    else None
  }

  /** Decodes the text between the parentheses of a variant label. */
  function ParseVariationBody(inner: string): Option<(Option<nat>, Option<nat>)>
  {
    match ReadCount(inner, "compopts")
    case Some((c, after)) =>
      if after == "" then Some((Some(c), None))
      else if StartsWith(after, ", ") then
        match ReadCount(after[2..], "execopts")
        case Some((e, "")) => Some((Some(c), Some(e)))
        case _ => None
      else None
    case None =>
      match ReadCount(inner, "execopts")
      case Some((e, "")) => Some((None, Some(e)))
      case _ => None
  }

  /** Decodes a variant label into the counts it shows. */
  function ParseTestVariation(s: string): Option<(Option<nat>, Option<nat>)>
  {
    if |s| >= 3 && StartsWith(s, " (") && EndsWith(s, ")") then ParseVariationBody(s[2..|s| - 1])
    else None
  }

  lemma {:induction false} ReadCountOfLabel(key: string, n: nat, rest: string)
    requires rest == "" || !IsDigit(rest[0])
    ensures ReadCount(key + ": " + NatToString(n) + rest, key) == Some((n, rest))
  {
    var s := key + ": " + NatToString(n) + rest;
    assert s[..|key| + 2] == key + ": ";
    assert s[|key| + 2..] == NatToString(n) + rest;
    TakeDigitsOfNumeral(NatToString(n), rest);
    NatToStringValue(n);
    assert (NatToString(n) + rest)[|NatToString(n)|..] == rest;
  }

  lemma {:induction false} BothCountsRoundTrip(c: nat, e: nat)
    ensures ParseVariationBody(VariationBody(Some(c), Some(e))) == Some((Some(c), Some(e)))
  {
    var ee := "execopts" + ": " + NatToString(e) + "";
    assert VariationBody(Some(c), Some(e)) == "compopts" + ": " + NatToString(c) + (", " + ee);
    ReadCountOfLabel("compopts", c, ", " + ee);
    ReadCountOfLabel("execopts", e, "");
    BodyWithBoth("compopts" + ": " + NatToString(c) + (", " + ee), c, ", " + ee, e);
  }

  /** A body whose compile count is followed by `, ` and an execution count
      decodes to both counts. */
  lemma BodyWithBoth(inner: string, c: nat, after: string, e: nat)
    requires ReadCount(inner, "compopts") == Some((c, after))
    requires |after| >= 2 && after[..2] == ", " && ReadCount(after[2..], "execopts") == Some((e, ""))
    ensures ParseVariationBody(inner) == Some((Some(c), Some(e)))
  {
    assert after != "" && StartsWith(after, ", ");
  }

  lemma {:induction false} CompCountRoundTrip(c: nat)
    ensures ParseVariationBody(VariationBody(Some(c), None)) == Some((Some(c), None))
  {
    assert VariationBody(Some(c), None) == "compopts" + ": " + NatToString(c) + "";
    ReadCountOfLabel("compopts", c, "");
  }

  lemma {:induction false} ExecCountRoundTrip(e: nat)
    ensures ParseVariationBody(VariationBody(None, Some(e))) == Some((None, Some(e)))
  {
    var body := VariationBody(None, Some(e));
    assert body == "execopts" + ": " + NatToString(e) + "";
    ReadCountOfLabel("execopts", e, "");
    assert body[0] == 'e';
    assert ReadCount(body, "compopts") == None;
  }

  /** The label decodes back to exactly the counts it shows. */
  lemma PrintTestVariationRoundTrip(compNum: nat, compCount: nat, execNum: nat, execCount: nat)
    requires Shows(compNum, compCount) || Shows(execNum, execCount)
    ensures ParseTestVariation(PrintTestVariation(compNum, compCount, execNum, execCount))
            == Some((if Shows(compNum, compCount) then Some(compNum) else None,
                     if Shows(execNum, execCount) then Some(execNum) else None))
  {
    var comp := if Shows(compNum, compCount) then Some(compNum) else None;
    var exec := if Shows(execNum, execCount) then Some(execNum) else None;
    var body := VariationBody(comp, exec);
    var s := " (" + body + ")";
    assert s[2..|s| - 1] == body;
    assert s[..2] == " (";
    if comp.Some? && exec.Some? {
      BothCountsRoundTrip(compNum, execNum);
    } else if comp.Some? {
      CompCountRoundTrip(compNum);
    } else {
      ExecCountRoundTrip(execNum);
    }
  }
}
