/** The expected-output ("good") file search of `FindGoodFile` and the two
    ways the driver calls it: for compiler output and for program output.

    The file system is two sets of names: the regular files that exist
    (`os.path.isfile`) and the files the driver may read (`os.access(R_OK)`).
 */
module GoodFile {
  import opened Wrappers
  import opened Strings
  import opened Decimal

  datatype FileSystem = FileSystem(files: set<string>, readable: set<string>)

  /** `os.path.isfile(p)`; the empty path is never a file. */
  predicate IsFile(fs: FileSystem, p: string) {
    p != "" && p in fs.files
  }

  /** The configuration a good file may be specific to: the machine name,
      the communication layer, the locale model, the platform, and the
      options given to every compile. The driver sets `machine` to
      `MachineName` of the host name; here it is an input like the others. */
  datatype Config = Config(
    machine: string,
    comm: string,
    localeModel: string,
    platform: string,
    envCompopts: seq<string>)

  /** `os.uname()[1].split('.', 1)[0]`. */
  function MachineName(hostname: string): (m: string)
    ensures '.' !in m
    ensures StartsWith(hostname, m)
    ensures |m| < |hostname| ==> hostname[|m|] == '.'
  {
    var parts := Split(hostname, '.');
    JoinSplit(hostname, '.');
    if |parts| == 1 then hostname
    else
      assert Join(parts, '.') == parts[0] + "." + Join(parts[1..], '.');
      assert hostname[..|parts[0]|] == parts[0];
      parts[0]
  }

  function CommTag(cfg: Config): string {
    ".comm-" + cfg.comm
  }

  function LocaleModelTag(cfg: Config): string {
    ".lm-" + cfg.localeModel
  }

  /** `--no-local` is one of the options passed to every compile. */
  predicate NoLocal(cfg: Config) {
    "--no-local" in cfg.envCompopts
  }

  /** The names tried for one disambiguation suffix, most specific first:
      machine, `.no-local` (only under `--no-local`), communication layer
      plus locale model, communication layer, locale model, platform, and
      finally the plain name. */
  function Candidates(cfg: Config, basename: string, sfx: string): (c: seq<string>)
    ensures |c| == if NoLocal(cfg) then 7 else 6
    ensures c[|c| - 1] == basename + sfx + ".good"
  {
    [basename + "." + cfg.machine + sfx + ".good"]
    + (if NoLocal(cfg) then [basename + ".no-local" + sfx + ".good"] else [])
    + [ basename + CommTag(cfg) + LocaleModelTag(cfg) + sfx + ".good",
        basename + CommTag(cfg) + sfx + ".good",
        basename + LocaleModelTag(cfg) + sfx + ".good",
        basename + "." + cfg.platform + sfx + ".good",
        basename + sfx + ".good" ]
  }

  /** Every candidate for a suffix is a `.good` name carrying that suffix. */
  lemma CandidatesEndWithSuffix(cfg: Config, basename: string, sfx: string, k: nat)
    requires k < |Candidates(cfg, basename, sfx)|
    ensures EndsWith(Candidates(cfg, basename, sfx)[k], sfx + ".good")
  {
    EndsWithAppended(basename + "." + cfg.machine, sfx, ".good");
    EndsWithAppended(basename + ".no-local", sfx, ".good");
    EndsWithAppended(basename + CommTag(cfg) + LocaleModelTag(cfg), sfx, ".good");
    EndsWithAppended(basename + CommTag(cfg), sfx, ".good");
    EndsWithAppended(basename + LocaleModelTag(cfg), sfx, ".good");
    EndsWithAppended(basename + "." + cfg.platform, sfx, ".good");
    EndsWithAppended(basename, sfx, ".good");
  }

  lemma EndsWithAppended(x: string, s: string, t: string)
    ensures EndsWith(x + s + t, s + t)
  {
    assert x + s + t == x + (s + t);
  }

  /** All names tried, suffix by suffix in the order given. */
  function AllCandidates(cfg: Config, basename: string, sfxs: seq<string>): seq<string>
  {
    if |sfxs| == 0 then [] else Candidates(cfg, basename, sfxs[0]) + AllCandidates(cfg, basename, sfxs[1..])
  }

  /** The first name of the list that is an existing file. */
  function FirstExisting(fs: FileSystem, names: seq<string>): (r: Option<string>)
    ensures r.Some? ==> r.value in names && IsFile(fs, r.value)
    ensures r.None? ==> forall k :: 0 <= k < |names| ==> !IsFile(fs, names[k])
  {
    if |names| == 0 then None
    else if IsFile(fs, names[0]) then Some(names[0])
    else FirstExisting(fs, names[1..])
  }

  /** One pass of `FindGoodFile`'s loop body, step by step as the driver
      writes it: each step replaces the current name only while it is not an
      existing file. */
  function TrySuffix(fs: FileSystem, cfg: Config, basename: string, g: string, sfx: string): (r: string)
    ensures IsFile(fs, g) ==> r == g
    ensures !IsFile(fs, g) ==> r in Candidates(cfg, basename, sfx)
    ensures IsFile(fs, r) || r == basename + sfx + ".good"
  {
    var g1 := if !IsFile(fs, g) then basename + "." + cfg.machine + sfx + ".good" else g;
    var g2 := if !IsFile(fs, g1) && NoLocal(cfg) then basename + ".no-local" + sfx + ".good" else g1;
    var g3 := if !IsFile(fs, g2) then basename + CommTag(cfg) + LocaleModelTag(cfg) + sfx + ".good" else g2;
    var g4 := if !IsFile(fs, g3) then basename + CommTag(cfg) + sfx + ".good" else g3;
    var g5 := if !IsFile(fs, g4) then basename + LocaleModelTag(cfg) + sfx + ".good" else g4;
    var g6 := if !IsFile(fs, g5) then basename + "." + cfg.platform + sfx + ".good" else g5;
    if !IsFile(fs, g6) then basename + sfx + ".good" else g6
  }

  function FindGoodFileFrom(fs: FileSystem, cfg: Config, basename: string, g: string, sfxs: seq<string>): string
    decreases |sfxs|
  {
    if |sfxs| == 0 then g
    else FindGoodFileFrom(fs, cfg, basename, TrySuffix(fs, cfg, basename, g, sfxs[0]), sfxs[1..])
  }

  /** The loop from a current name that is not a file ends on one of the
      names tried. */
  lemma {:induction false} FindFromTried(fs: FileSystem, cfg: Config, basename: string, g: string, sfxs: seq<string>)
    requires |sfxs| > 0 && !IsFile(fs, g)
    ensures FindGoodFileFrom(fs, cfg, basename, g, sfxs) in AllCandidates(cfg, basename, sfxs)
    decreases |sfxs|
  {
    var g' := TrySuffix(fs, cfg, basename, g, sfxs[0]);
    assert AllCandidates(cfg, basename, sfxs) == Candidates(cfg, basename, sfxs[0]) + AllCandidates(cfg, basename, sfxs[1..]);
    if |sfxs| > 1 {
      if IsFile(fs, g') {
        KeepsExisting(fs, cfg, basename, g', sfxs[1..]);
      } else {
        FindFromTried(fs, cfg, basename, g', sfxs[1..]);
      }
    }
  }

  /** `FindGoodFile(basename, commExecNums)`: the loop starts from the empty
      name, which is never a file, so the result is one of the names tried. */
  function FindGoodFile(fs: FileSystem, cfg: Config, basename: string, sfxs: seq<string>): (r: string)
    ensures |sfxs| == 0 ==> r == ""
    ensures |sfxs| > 0 ==> r in AllCandidates(cfg, basename, sfxs)
  {
    if |sfxs| == 0 then ""
    else
      FindFromTried(fs, cfg, basename, "", sfxs);
      FindGoodFileFrom(fs, cfg, basename, "", sfxs)
  }

  /** One pass keeps an existing name, and otherwise yields the first
      existing candidate for the suffix, or the plain name when none
      exists. */
  lemma {:induction false} TrySuffixSpec(fs: FileSystem, cfg: Config, basename: string, g: string, sfx: string)
    ensures IsFile(fs, g) ==> TrySuffix(fs, cfg, basename, g, sfx) == g
    ensures !IsFile(fs, g) ==>
              TrySuffix(fs, cfg, basename, g, sfx)
              == match FirstExisting(fs, Candidates(cfg, basename, sfx))
                 case Some(c) => c
                 case None => basename + sfx + ".good"
  {
    var m := basename + "." + cfg.machine + sfx + ".good";
    var nl := basename + ".no-local" + sfx + ".good";
    var cl := basename + CommTag(cfg) + LocaleModelTag(cfg) + sfx + ".good";
    var co := basename + CommTag(cfg) + sfx + ".good";
    var lm := basename + LocaleModelTag(cfg) + sfx + ".good";
    var pl := basename + "." + cfg.platform + sfx + ".good";
    var plain := basename + sfx + ".good";
    var tail := [cl, co, lm, pl, plain];
    FirstExistingCons(fs, cl, [co, lm, pl, plain]);
    FirstExistingCons(fs, co, [lm, pl, plain]);
    FirstExistingCons(fs, lm, [pl, plain]);
    FirstExistingCons(fs, pl, [plain]);
    FirstExistingCons(fs, plain, []);
    if NoLocal(cfg) {
      assert Candidates(cfg, basename, sfx) == [m] + ([nl] + tail);
      FirstExistingCons(fs, m, [nl] + tail);
      FirstExistingCons(fs, nl, tail);
    } else {
      assert Candidates(cfg, basename, sfx) == [m] + tail;
      FirstExistingCons(fs, m, tail);
    }
  }

  lemma FirstExistingCons(fs: FileSystem, x: string, rest: seq<string>)
    ensures FirstExisting(fs, [x] + rest) == if IsFile(fs, x) then Some(x) else FirstExisting(fs, rest)
  {
    assert ([x] + rest)[1..] == rest;
  }

  lemma {:induction false} KeepsExisting(fs: FileSystem, cfg: Config, basename: string, g: string, sfxs: seq<string>)
    requires IsFile(fs, g)
    ensures FindGoodFileFrom(fs, cfg, basename, g, sfxs) == g
  {
    if |sfxs| > 0 {
      TrySuffixSpec(fs, cfg, basename, g, sfxs[0]);
      KeepsExisting(fs, cfg, basename, g, sfxs[1..]);
    }
  }

  lemma {:induction false} FirstExistingAppend(fs: FileSystem, a: seq<string>, b: seq<string>)
    ensures FirstExisting(fs, a + b)
            == if FirstExisting(fs, a).Some? then FirstExisting(fs, a) else FirstExisting(fs, b)
  {
    if |a| > 0 {
      assert (a + b)[1..] == a[1..] + b;
      FirstExistingAppend(fs, a[1..], b);
    } else {
      assert a + b == b;
    }
  }

  /** The search, stated without its loop: the result is the first existing
      file among all candidates, suffix by suffix; when none exists it is the
      plain name for the last suffix (a path that does not exist), and the
      empty name when no suffix is given. */
  lemma {:induction false} FindGoodFileSpec(fs: FileSystem, cfg: Config, basename: string, sfxs: seq<string>)
    ensures FindGoodFile(fs, cfg, basename, sfxs)
            == match FirstExisting(fs, AllCandidates(cfg, basename, sfxs))
               case Some(c) => c
               case None => if |sfxs| == 0 then "" else basename + sfxs[|sfxs| - 1] + ".good"
  {
    FindFromSpec(fs, cfg, basename, "", sfxs);
  }

  lemma {:induction false} FindFromSpec(fs: FileSystem, cfg: Config, basename: string, g: string, sfxs: seq<string>)
    requires !IsFile(fs, g)
    ensures FindGoodFileFrom(fs, cfg, basename, g, sfxs)
            == match FirstExisting(fs, AllCandidates(cfg, basename, sfxs))
               case Some(c) => c
               case None => if |sfxs| == 0 then g else basename + sfxs[|sfxs| - 1] + ".good"
    decreases |sfxs|
  {
    if |sfxs| > 0 {
      if FirstExisting(fs, Candidates(cfg, basename, sfxs[0])).Some? {
        FoundForFirstSuffix(fs, cfg, basename, g, sfxs);
      } else {
        var g' := basename + sfxs[0] + ".good";
        NoneForFirstSuffix(fs, cfg, basename, g, sfxs);
        FindFromSpec(fs, cfg, basename, g', sfxs[1..]);
        if |sfxs| > 1 {
          assert sfxs[1..][|sfxs[1..]| - 1] == sfxs[|sfxs| - 1];
        }
      }
    }
  }

  /** A candidate for the first suffix exists: the search ends there. */
  lemma FoundForFirstSuffix(fs: FileSystem, cfg: Config, basename: string, g: string, sfxs: seq<string>)
    requires |sfxs| > 0 && !IsFile(fs, g)
    requires FirstExisting(fs, Candidates(cfg, basename, sfxs[0])).Some?
    ensures FirstExisting(fs, AllCandidates(cfg, basename, sfxs)).Some?
    ensures FindGoodFileFrom(fs, cfg, basename, g, sfxs) == FirstExisting(fs, AllCandidates(cfg, basename, sfxs)).value
  {
    var first := Candidates(cfg, basename, sfxs[0]);
    var g' := TrySuffix(fs, cfg, basename, g, sfxs[0]);
    TrySuffixSpec(fs, cfg, basename, g, sfxs[0]);
    FirstExistingAppend(fs, first, AllCandidates(cfg, basename, sfxs[1..]));
    KeepsExisting(fs, cfg, basename, g', sfxs[1..]);
  }

  /** No candidate for the first suffix exists: the search goes on from the
      plain name for that suffix, which is not a file either. */
  lemma NoneForFirstSuffix(fs: FileSystem, cfg: Config, basename: string, g: string, sfxs: seq<string>)
    requires |sfxs| > 0 && !IsFile(fs, g)
    requires FirstExisting(fs, Candidates(cfg, basename, sfxs[0])).None?
    ensures !IsFile(fs, basename + sfxs[0] + ".good")
    ensures FirstExisting(fs, AllCandidates(cfg, basename, sfxs)) == FirstExisting(fs, AllCandidates(cfg, basename, sfxs[1..]))
    ensures FindGoodFileFrom(fs, cfg, basename, g, sfxs)
            == FindGoodFileFrom(fs, cfg, basename, basename + sfxs[0] + ".good", sfxs[1..])
  {
    var first := Candidates(cfg, basename, sfxs[0]);
    TrySuffixSpec(fs, cfg, basename, g, sfxs[0]);
    FirstExistingAppend(fs, first, AllCandidates(cfg, basename, sfxs[1..]));
    assert !IsFile(fs, first[|first| - 1]);
  }

  /** The result is total: for a non-empty suffix list it is always some
      `.good` name, found or not. */
  lemma FindGoodFileIsGoodName(fs: FileSystem, cfg: Config, basename: string, sfxs: seq<string>)
    requires |sfxs| > 0
    ensures EndsWith(FindGoodFile(fs, cfg, basename, sfxs), ".good")
  {
    FindGoodFileSpec(fs, cfg, basename, sfxs);
    match FirstExisting(fs, AllCandidates(cfg, basename, sfxs))
    case Some(c) => CandidatesAreGoodNames(cfg, basename, sfxs, c);
    case None =>
  }

  lemma {:induction false} CandidatesAreGoodNames(cfg: Config, basename: string, sfxs: seq<string>, c: string)
    requires c in AllCandidates(cfg, basename, sfxs)
    ensures EndsWith(c, ".good")
  {
    if |sfxs| > 0 {
      var first := Candidates(cfg, basename, sfxs[0]);
      if c in first {
        var k :| 0 <= k < |first| && first[k] == c;
        CandidatesEndWithSuffix(cfg, basename, sfxs[0], k);
        assert EndsWith(c, sfxs[0] + ".good");
      } else {
        CandidatesAreGoodNames(cfg, basename, sfxs[1..], c);
      }
    }
  }

  /** A file found for an earlier suffix is never replaced by one for a
      later suffix. */
  lemma EarlierSuffixWins(fs: FileSystem, cfg: Config, basename: string, sfxs: seq<string>)
    requires |sfxs| > 0
    requires exists k :: 0 <= k < |Candidates(cfg, basename, sfxs[0])| && IsFile(fs, Candidates(cfg, basename, sfxs[0])[k])
    ensures FindGoodFile(fs, cfg, basename, sfxs) in Candidates(cfg, basename, sfxs[0])
  {
    var first := Candidates(cfg, basename, sfxs[0]);
    FindGoodFileSpec(fs, cfg, basename, sfxs);
    FirstExistingAppend(fs, first, AllCandidates(cfg, basename, sfxs[1..]));
  }

  /** With `--no-local` in effect and no machine-specific file, an existing
      `.no-local` file is chosen over every other configuration. */
  lemma NoLocalPreferred(fs: FileSystem, cfg: Config, basename: string)
    requires NoLocal(cfg)
    requires !IsFile(fs, basename + "." + cfg.machine + ".good")
    requires IsFile(fs, basename + ".no-local.good")
    ensures FindGoodFile(fs, cfg, basename, [""]) == basename + ".no-local.good"
  {
    var c := Candidates(cfg, basename, "");
    assert c[0] == basename + "." + cfg.machine + ".good";
    assert c[1] == basename + ".no-local.good";
    assert c[1..][1..] == c[2..];
    assert AllCandidates(cfg, basename, [""]) == c + AllCandidates(cfg, basename, [""][1..]);
    FindGoodFileSpec(fs, cfg, basename, [""]);
    FirstExistingAppend(fs, c, []);
    assert c + [] == c;
  }

  /** Whether the driver can use a name as its comparison file: it must be an
      existing regular file that may be read. */
  predicate Usable(fs: FileSystem, p: string) {
    IsFile(fs, p) && p in fs.readable
  }

  /** The good file for compiler output (the compile step that fails or that
      is not followed by an execution): the test's base name, or the explicit
      `#name` of the compile option with any `.good` removed; no
      variant-specific suffix. */
  function CompileGoodFile(fs: FileSystem, cfg: Config, testFilename: string, explicit: Option<string>): (g: string)
    ensures explicit.None? ==> g == FindGoodFile(fs, cfg, testFilename, [""])
    ensures explicit.Some? ==> g == FindGoodFile(fs, cfg, RemoveAll(explicit.value, ".good"), [""])
    ensures var basename := if explicit.Some? then RemoveAll(explicit.value, ".good") else testFilename;
            g == match FirstExisting(fs, Candidates(cfg, basename, ""))
                 case Some(c) => c
                 case None => basename + ".good"
  {
    var basename := if explicit.Some? then RemoveAll(explicit.value, ".good") else testFilename;
    SingleSuffixSpec(fs, cfg, basename);
    FindGoodFile(fs, cfg, basename, [""])
  }

  /** The search with the plain suffix alone: the first existing candidate,
      or `basename.good`. */
  lemma SingleSuffixSpec(fs: FileSystem, cfg: Config, basename: string)
    ensures FindGoodFile(fs, cfg, basename, [""])
            == match FirstExisting(fs, Candidates(cfg, basename, ""))
               case Some(c) => c
               case None => basename + ".good"
  {
    var c := Candidates(cfg, basename, "");
    FindGoodFileSpec(fs, cfg, basename, [""]);
    assert AllCandidates(cfg, basename, [""]) == c + AllCandidates(cfg, basename, [""][1..]);
    assert c + [] == c;
    assert basename + "" + ".good" == basename + ".good";
  }

  /** The suffixes tried for program output: `.<c>-<e>` then plain when the
      test has several variants, only plain when it has one or when the
      exec option names its good file explicitly. */
  function ExecSuffixes(onlyOne: bool, compNum: nat, execNum: nat, explicit: Option<string>): (s: seq<string>)
    ensures |s| >= 1 && s[|s| - 1] == ""
    ensures |s| == 2 <==> !onlyOne && explicit.None?
    ensures |s| == 2 ==> s[0] == "." + NatToString(compNum) + "-" + NatToString(execNum)
  {
    if explicit.Some? || onlyOne then [""]
    else ["." + NatToString(compNum) + "-" + NatToString(execNum), ""]
  }

  /** The good file for program output. With one variant or an explicit
      good file, it is searched exactly as the compiler's good file is;
      either way it is a `.good` name. */
  function ExecGoodFile(fs: FileSystem, cfg: Config, testFilename: string, onlyOne: bool,
                        compNum: nat, execNum: nat, explicit: Option<string>): (g: string)
    ensures onlyOne || explicit.Some? ==> g == CompileGoodFile(fs, cfg, testFilename, explicit)
    ensures EndsWith(g, ".good")
  {
    var basename := if explicit.Some? then RemoveAll(explicit.value, ".good") else testFilename;
    var sfxs := ExecSuffixes(onlyOne, compNum, execNum, explicit);
    FindGoodFileIsGoodName(fs, cfg, basename, sfxs);
    FindGoodFile(fs, cfg, basename, sfxs)
  }

  /** For a test with several variants and no explicit good file, an
      existing variant-specific file (`foo.2-1.good`, or a configuration
      specific one such as `foo.comm-gasnet.2-1.good`) always beats the
      shared `foo.good`. */
  lemma VariantSpecificGoodFileWins(fs: FileSystem, cfg: Config, testFilename: string, compNum: nat, execNum: nat)
    requires var sfx := "." + NatToString(compNum) + "-" + NatToString(execNum);
             exists k :: 0 <= k < |Candidates(cfg, testFilename, sfx)| && IsFile(fs, Candidates(cfg, testFilename, sfx)[k])
    ensures var sfx := "." + NatToString(compNum) + "-" + NatToString(execNum);
            ExecGoodFile(fs, cfg, testFilename, false, compNum, execNum, None) in Candidates(cfg, testFilename, sfx)
  {
    EarlierSuffixWins(fs, cfg, testFilename, ExecSuffixes(false, compNum, execNum, None));
  }
}
