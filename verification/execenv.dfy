/** The environment a test runs in: the assignments of the directory's
    `EXECENV` file, then those of the test's own `foo.execenv`, each
    `NAME=value` line setting one variable; a later assignment to the same
    name wins.
 */
module ExecEnv {
  import opened Wrappers
  import opened Strings
  import opened ConfigFiles

  /** The assignments of an environment file (indented comments allowed);
      none when the file cannot be read. */
  function EnvFileEntries(file: Option<seq<string>>): (r: seq<string>)
    ensures file.None? ==> r == []
    ensures file.Some? ==> r == ReadFileWithComments(file.value, true)
    ensures file.Some? ==> |r| <= |file.value|
    ensures forall k :: 0 <= k < |r| ==> Kept(r[k], true) && RStrip(r[k]) == r[k]
    ensures file.Some? ==> forall k :: 0 <= k < |r| ==> ReadFrom(r[k], file.value)
  {
    if file.Some? then ReadFileWithComments(file.value, true) else []
  }

  /** An assignment line cut at `=`: the text before its first `=` and the
      text between its first and its second `=` (anything after a second
      `=` is dropped), or the IndexError raised for a line without `=`. The
      driver strips both pieces when it stores them. */
  function EnvEntry(tev: string): (r: Result<(string, string)>)
    ensures r.Ok? <==> '=' in tev
    ensures r.Ok? ==> '=' !in r.value.0 && '=' !in r.value.1
  {
    var pieces := Split(tev, '=');
    if |pieces| >= 2 then Ok((pieces[0], pieces[1])) else Err(IndexError)
  }

  /** A well-formed assignment reads back as the name and value it was
      written from. */
  lemma {:induction false} EnvEntryOfAssignment(name: string, value: string)
    requires '=' !in name && '=' !in value
    ensures EnvEntry(name + "=" + value) == Ok((name, value))
  {
    SplitAtFirst(name, '=', value);
    assert name + "=" + value == name + ['='] + value;
  }

  /** A value holding a further `=` is cut at it. */
  lemma {:induction false} EnvValueStopsAtSecondEquals(name: string, value: string, more: string)
    requires '=' !in name && '=' !in value
    ensures EnvEntry(name + "=" + value + "=" + more) == Ok((name, value))
  {
    var s := name + "=" + value + "=" + more;
    assert s == name + ['='] + (value + ['='] + more);
    SplitAtFirst(name, '=', value + ['='] + more);
    SplitAtFirst(value, '=', more);
  }

  /** The assignments of a file, in order, or the IndexError raised at its
      first line without `=`. */
  function ParseEnv(entries: seq<string>): (r: Result<seq<(string, string)>>)
    ensures r.Ok? ==> |r.value| == |entries|
    ensures r.Err? ==> r.failure == IndexError
    ensures r.Err? ==> exists k :: 0 <= k < |entries| && '=' !in entries[k]
  {
    if |entries| == 0 then Ok([])
    else
      match EnvEntry(entries[0])
      case Err(f) => Err(f)
      case Ok(kv) =>
        match ParseEnv(entries[1..])
        case Err(f) =>
          var k :| 0 <= k < |entries[1..]| && '=' !in entries[1..][k];
          assert '=' !in entries[k + 1];
          Err(f)
        case Ok(rest) => Ok([kv] + rest)
  }

  /** Parsing fails, with an IndexError, exactly when some line has no
      `=`. */
  lemma {:induction false} ParseEnvFails(entries: seq<string>)
    ensures ParseEnv(entries).Ok? <==> forall k :: 0 <= k < |entries| ==> '=' in entries[k]
    ensures ParseEnv(entries).Err? ==> ParseEnv(entries).failure == IndexError
  {
    if |entries| > 0 {
      ParseEnvFails(entries[1..]);
      assert forall k :: 1 <= k < |entries| ==> entries[k] == entries[1..][k - 1];
      if '=' in entries[0] && !(forall k :: 0 <= k < |entries[1..]| ==> '=' in entries[1..][k]) {
        var k :| 0 <= k < |entries[1..]| && '=' !in entries[1..][k];
        assert '=' !in entries[k + 1];
      }
    }
  }

  /** Each parsed assignment is its own line's. */
  lemma {:induction false} ParseEnvAt(entries: seq<string>, k: nat)
    requires ParseEnv(entries).Ok? && k < |entries|
    ensures EnvEntry(entries[k]) == Ok(ParseEnv(entries).value[k])
  {
    if k > 0 {
      ParseEnvAt(entries[1..], k - 1);
      assert entries[1..][k - 1] == entries[k];
    }
  }

  /** The value of the last assignment to `key`, if any. */
  function LastValue(pairs: seq<(string, string)>, key: string): Option<string>
  {
    if |pairs| == 0 then None
    else if pairs[|pairs| - 1].0 == key then Some(pairs[|pairs| - 1].1)
    else LastValue(pairs[..|pairs| - 1], key)
  }

  /** Whether an assignment sets `key`. */
  predicate Sets(kv: (string, string), key: string) {
    kv.0 == key
  }

  /** `LastValue` finds a value exactly when some assignment sets the
      variable, and the value it finds is that of an assignment no later
      one overrides. */
  lemma {:induction false} LastValueSpec(pairs: seq<(string, string)>, key: string)
    ensures LastValue(pairs, key).Some? <==> exists k :: 0 <= k < |pairs| && Sets(pairs[k], key)
    ensures LastValue(pairs, key).Some? ==>
              exists k :: 0 <= k < |pairs| && Sets(pairs[k], key)
                && pairs[k].1 == LastValue(pairs, key).value
                && forall j :: k < j < |pairs| ==> !Sets(pairs[j], key)
  {
    if |pairs| > 0 {
      var init := pairs[..|pairs| - 1];
      LastValueSpec(init, key);
      if !Sets(pairs[|pairs| - 1], key) {
        if exists k :: 0 <= k < |pairs| && Sets(pairs[k], key) {
          var k :| 0 <= k < |pairs| && Sets(pairs[k], key);
          assert init[k] == pairs[k];
        }
        if LastValue(init, key).Some? {
          var k :| 0 <= k < |init| && Sets(init[k], key)
                   && init[k].1 == LastValue(init, key).value
                   && forall j :: k < j < |init| ==> !Sets(init[j], key);
          assert pairs[k] == init[k];
          forall j | k < j < |pairs|
            ensures !Sets(pairs[j], key)
          {
            if j < |init| {
              assert pairs[j] == init[j];
            }
          }
        }
      }
    }
  }

  /** Applying assignments in order to an environment. */
  function ApplyEnv(env: map<string, string>, pairs: seq<(string, string)>): (r: map<string, string>)
    ensures forall key :: key in env ==> key in r
    ensures forall k :: 0 <= k < |pairs| ==> pairs[k].0 in r
    ensures forall key :: key in r ==> key in env || exists k :: 0 <= k < |pairs| && Sets(pairs[k], key)
  {
    if |pairs| == 0 then env
    else
      var (k, v) := pairs[|pairs| - 1];
      var init := pairs[..|pairs| - 1];
      assert forall j :: 0 <= j < |init| ==> init[j] == pairs[j];
      ApplyEnv(env, init)[k := v]
  }

  /** After applying assignments, a variable has the value of the last
      assignment to it, or keeps its earlier value when none assigns it; no
      other variable appears. */
  lemma {:induction false} ApplyEnvLookup(env: map<string, string>, pairs: seq<(string, string)>, key: string)
    ensures var m := ApplyEnv(env, pairs);
            && (key in m <==> key in env || LastValue(pairs, key).Some?)
            && (LastValue(pairs, key).Some? ==> m[key] == LastValue(pairs, key).value)
            && (LastValue(pairs, key).None? && key in env ==> m[key] == env[key])
  {
    if |pairs| > 0 {
      ApplyEnvLookup(env, pairs[..|pairs| - 1], key);
    }
  }

  /** The name and value of each assignment, stripped. */
  function Stripped(pairs: seq<(string, string)>): (r: seq<(string, string)>)
    ensures |r| == |pairs|
  {
    seq(|pairs|, i requires 0 <= i < |pairs| => (Strip(pairs[i].0), Strip(pairs[i].1)))
  }

  /** The environment of a test: the directory's assignments, then the
      test's own; a line without `=` in either raises an IndexError. */
  function TestEnv(global: seq<string>, local: seq<string>): (r: Result<map<string, string>>)
    ensures r.Err? ==> r.failure == IndexError
    ensures r.Err? ==> (exists k :: 0 <= k < |global| && '=' !in global[k])
                       || (exists k :: 0 <= k < |local| && '=' !in local[k])
  {
    match ParseEnv(global)
    case Err(f) => Err(f)
    case Ok(g) =>
      match ParseEnv(local)
      case Err(f) => Err(f)
      case Ok(l) => Ok(ApplyEnv(ApplyEnv(map[], Stripped(g)), Stripped(l)))
  }

  /** The test's own file overrides the directory's for a variable both set;
      a variable only one of them sets takes that one's value; no other
      variable is set. */
  lemma TestEnvPrecedence(global: seq<string>, local: seq<string>, key: string)
    requires TestEnv(global, local).Ok?
    ensures var m := TestEnv(global, local).value;
            var g := Stripped(ParseEnv(global).value);
            var l := Stripped(ParseEnv(local).value);
            && (key in m <==> LastValue(g, key).Some? || LastValue(l, key).Some?)
            && (LastValue(l, key).Some? ==> m[key] == LastValue(l, key).value)
            && (LastValue(l, key).None? && LastValue(g, key).Some? ==> m[key] == LastValue(g, key).value)
  {
    var g := Stripped(ParseEnv(global).value);
    var l := Stripped(ParseEnv(local).value);
    ApplyEnvLookup(map[], g, key);
    ApplyEnvLookup(ApplyEnv(map[], g), l, key);
  }

  /** The run fails, with an IndexError, exactly when a line of either file
      has no `=`. */
  lemma TestEnvFails(global: seq<string>, local: seq<string>)
    ensures TestEnv(global, local).Err? <==>
              (exists k :: 0 <= k < |global| && '=' !in global[k])
              || (exists k :: 0 <= k < |local| && '=' !in local[k])
    ensures TestEnv(global, local).Err? ==> TestEnv(global, local).failure == IndexError
  {
    ParseEnvFails(global);
    ParseEnvFails(local);
  }
}
