/** Text the driver builds for the shell, the launcher and the log: the
    walltime argument of a batch launcher, shell escaping of a command and
    its arguments, and the trimming of program output before it is logged.
 */
module Formatting {
  import opened Wrappers
  import opened Strings
  import opened Decimal

  /* ---------------------------------------------------------------------- */
  /* Launcher walltime                                                       */
  /* ---------------------------------------------------------------------- */

  /** Seconds as hours, minutes and seconds, with Python's floor `divmod`
      (Dafny's `/` and `%` agree with it for the positive divisor 60). */
  function Walltime(seconds: int): (hms: (int, int, int))
    ensures hms.0 * 3600 + hms.1 * 60 + hms.2 == seconds
    ensures 0 <= hms.1 < 60 && 0 <= hms.2 < 60
    ensures seconds >= 0 ==> hms.0 >= 0
  {
    var m := seconds / 60;
    var s := seconds % 60;
    (m / 60, m % 60, s)
  }

  /** The one argument a launcher that understands walltimes is given:
      `--walltime=hh:mm:ss`, each field at least two digits wide. */
  function WalltimeArg(seconds: int): string {
    FormatWalltime(Walltime(seconds))
  }

  function FormatWalltime(hms: (int, int, int)): string {
    "--walltime=" + Pad2(hms.0) + ":" + Pad2(hms.1) + ":" + Pad2(hms.2)
  }

  /** `LauncherTimeoutArgs`: the walltime argument for the `pbs` and `slurm`
      launcher timeouts, a fatal error for any other. */
  function LauncherTimeoutArgs(launcherTimeout: string, seconds: int): (r: Result<seq<string>>)
    ensures r.Ok? <==> launcherTimeout == "pbs" || launcherTimeout == "slurm"
    ensures r.Ok? ==> r.value == [WalltimeArg(seconds)]
    ensures r.Err? ==> r.failure == Fatal("LauncherTimeoutArgs encountered an unknown format spec: " + launcherTimeout)
    ensures r.Ok? ==> |r.value| == 1 && ParseWalltimeArg(r.value[0]) == Some(seconds)
  {
    if launcherTimeout == "pbs" || launcherTimeout == "slurm" then
      WalltimeRoundTrip(seconds);
      Ok([WalltimeArg(seconds)])
    else Err(Fatal("LauncherTimeoutArgs encountered an unknown format spec: " + launcherTimeout))
  }

  /** Reads a walltime argument back as a number of seconds. */
  function ParseWalltimeArg(arg: string): Option<int> {
    if !StartsWith(arg, "--walltime=") then None
    else
      match ParseWalltimeFields(Split(arg[11..], ':'))
      case None => None
      case Some(hms) => Some(Seconds(hms))
  }

  function Seconds(hms: (int, int, int)): int {
    hms.0 * 3600 + hms.1 * 60 + hms.2
  }

  /** Reads `h:m:s`, cut at the colons, as its three numbers. */
  function ParseWalltimeFields(fields: seq<string>): Option<(int, int, int)> {
    if |fields| != 3 then None
    else
      var h := ParseInt(fields[0]);
      var m := ParseInt(fields[1]);
      var s := ParseInt(fields[2]);
      if h.Some? && m.Some? && s.Some? then Some((h.value, m.value, s.value)) else None
  }

  /** A one-digit field `0d` reads back as `d`. */
  lemma {:induction false} ParseZeroPadded(i: int)
    requires 0 <= i < 10
    ensures ParseInt("0" + NatToString(i)) == Some(i)
  {
    var c := DigitChar(i);
    assert NatToString(i) == [c];
    ParseZeroThenDigit(NatToString(i), c);
  }

  lemma ParseZeroThenDigit(d: string, c: char)
    requires d == [c] && IsDigit(c)
    ensures ParseInt("0" + d) == Some(c as int - '0' as int)
  {
    ZeroThenDigitValue(d, c);
    ParseDigits("0" + d);
  }

  lemma ZeroThenDigitValue(d: string, c: char)
    requires d == [c] && IsDigit(c)
    ensures |"0" + d| > 0 && AllDigits("0" + d) && DigitsValue("0" + d) == c as int - '0' as int
  {
    var r := "0" + d;
    assert r == ['0', c];
    assert r[..1] == "0" && r[..1][..0] == "";
    assert DigitsValue(r[..1]) == 0;
  }

  /** A padded field reads back as its number. */
  lemma {:induction false} ParsePad2(i: int)
    ensures ParseInt(Pad2(i)) == Some(i)
  {
    if 0 <= i < 10 {
      ParseZeroPadded(i);
    } else {
      ParseIntToString(i);
    }
  }

  /** A padded field holds digits and perhaps a minus sign, never a colon. */
  lemma Pad2ColonFree(i: int)
    ensures ':' !in Pad2(i)
  {
    var r := Pad2(i);
    var d := NatToString(if i < 0 then -i else i);
    assert forall k :: 0 <= k < |r| ==> r[k] == '-' || IsDigit(r[k]) by {
      if 0 <= i < 10 {
        assert r == "0" + d;
      } else if i < 0 {
        assert r == "-" + d;
      }
    }
  }

  /** The three fields of a walltime split apart at the colons. */
  lemma {:induction false} WalltimeFields(h: int, m: int, s: int)
    ensures Split(Pad2(h) + ":" + Pad2(m) + ":" + Pad2(s), ':') == [Pad2(h), Pad2(m), Pad2(s)]
  {
    var fields := [Pad2(h), Pad2(m), Pad2(s)];
    Pad2ColonFree(h);
    Pad2ColonFree(m);
    Pad2ColonFree(s);
    assert fields[1..][1..] == [Pad2(s)];
    assert Join(fields[1..][1..], ':') == Pad2(s);
    assert Join(fields[1..], ':') == Pad2(m) + [':'] + Pad2(s);
    assert Join(fields, ':') == Pad2(h) + [':'] + (Pad2(m) + [':'] + Pad2(s));
    assert Join(fields, ':') == Pad2(h) + ":" + Pad2(m) + ":" + Pad2(s);
    SplitJoin(fields, ':');
  }

  /** The prefix of a walltime argument is recognised and cut off. */
  lemma WalltimePrefix(body: string)
    ensures StartsWith("--walltime=" + body, "--walltime=")
    ensures ("--walltime=" + body)[11..] == body
  {
  }

  /** Three padded fields read back as their numbers. */
  lemma {:induction false} ParsePaddedFields(h: int, m: int, s: int)
    ensures ParseWalltimeFields([Pad2(h), Pad2(m), Pad2(s)]) == Some((h, m, s))
  {
    ParsePad2(h);
    ParsePad2(m);
    ParsePad2(s);
    var fields := [Pad2(h), Pad2(m), Pad2(s)];
    assert fields[0] == Pad2(h) && fields[1] == Pad2(m) && fields[2] == Pad2(s);
  }

  /** A formatted walltime reads back as its fields. */
  lemma {:induction false} ParseFormatWalltime(hms: (int, int, int))
    ensures ParseWalltimeArg(FormatWalltime(hms)) == Some(Seconds(hms))
  {
    var body := Pad2(hms.0) + ":" + Pad2(hms.1) + ":" + Pad2(hms.2);
    assert FormatWalltime(hms) == "--walltime=" + body;
    WalltimePrefix(body);
    WalltimeFields(hms.0, hms.1, hms.2);
    ParsePaddedFields(hms.0, hms.1, hms.2);
  }

  /** The walltime argument reads back as the number of seconds it was
      made from. */
  lemma {:induction false} WalltimeRoundTrip(seconds: int)
    ensures ParseWalltimeArg(WalltimeArg(seconds)) == Some(seconds)
  {
    var hms := Walltime(seconds);
    SecondsOfWalltime(seconds);
    ParseFormatWalltime(hms);
  }

  lemma SecondsOfWalltime(seconds: int)
    ensures Seconds(Walltime(seconds)) == seconds
  {
    var hms := Walltime(seconds);
    assert hms.0 * 3600 + hms.1 * 60 + hms.2 == seconds;
  }

  /* ---------------------------------------------------------------------- */
  /* Shell escaping                                                          */
  /* ---------------------------------------------------------------------- */

  /** The characters `ShellEscapeCommand` escapes. */
  predicate IsCommandSpecial(c: char) {
    c in "\\!@#$%^&*()?'\"|<>[]{}"
  }

  /** The characters `ShellEscape` escapes: those, and the space. */
  predicate IsArgSpecial(c: char) {
    IsCommandSpecial(c) || c == ' '
  }

  /** A backslash in front of every character `special` picks out. */
  function Escape(s: string, spaceToo: bool): (r: string)
    ensures |r| >= |s|
    decreases |s|
  {
    if |s| == 0 then ""
    else if IsCommandSpecial(s[0]) || (spaceToo && s[0] == ' ') then ['\\', s[0]] + Escape(s[1..], spaceToo)
    else [s[0]] + Escape(s[1..], spaceToo)
  }

  /** `ShellEscape`: escapes every shell special character and the space. */
  function ShellEscape(arg: string): (r: string)
    ensures |r| >= |arg|
  {
    Escape(arg, true)
  }

  /** `ShellEscapeCommand`: the same, but spaces stay as they are. */
  function ShellEscapeCommand(arg: string): (r: string)
    ensures |r| >= |arg|
  {
    Escape(arg, false)
  }

  /** What the shell does with backslashes outside quotes: a backslash
      stands for the character after it. */
  function Unescape(s: string): string
    decreases |s|
  {
    if |s| == 0 then ""
    else if s[0] == '\\' && |s| >= 2 then [s[1]] + Unescape(s[2..])
    else [s[0]] + Unescape(s[1..])
  }

  /** The shell reads an escaped text back as the original. */
  lemma {:induction false} UnescapeEscape(s: string, spaceToo: bool)
    ensures Unescape(Escape(s, spaceToo)) == s
    decreases |s|
  {
    if |s| > 0 {
      UnescapeEscape(s[1..], spaceToo);
      var e := Escape(s, spaceToo);
      if IsCommandSpecial(s[0]) || (spaceToo && s[0] == ' ') {
        assert e[2..] == Escape(s[1..], spaceToo);
      } else {
        assert s[0] != '\\';
        assert e[1..] == Escape(s[1..], spaceToo);
      }
      assert [s[0]] + s[1..] == s;
    }
  }

  /** Both escapes are undone by the shell. */
  lemma ShellEscapeRoundTrip(arg: string)
    ensures Unescape(ShellEscape(arg)) == arg
    ensures Unescape(ShellEscapeCommand(arg)) == arg
  {
    UnescapeEscape(arg, true);
    UnescapeEscape(arg, false);
  }

  /** Every special character of the escaped text sits right after a
      backslash that escapes it, so none is seen by the shell: the text
      splits into pieces that are either one ordinary character or a
      backslash and a special character. */
  predicate Escaped(r: string, spaceToo: bool)
    decreases |r|
  {
    if |r| == 0 then true
    else if r[0] == '\\' then
      |r| >= 2 && (IsCommandSpecial(r[1]) || (spaceToo && r[1] == ' ')) && Escaped(r[2..], spaceToo)
    else !IsCommandSpecial(r[0]) && !(spaceToo && r[0] == ' ') && Escaped(r[1..], spaceToo)
  }

  lemma {:induction false} EscapeEscapes(s: string, spaceToo: bool)
    ensures Escaped(Escape(s, spaceToo), spaceToo)
    decreases |s|
  {
    if |s| > 0 {
      EscapeEscapes(s[1..], spaceToo);
      var e := Escape(s, spaceToo);
      if IsCommandSpecial(s[0]) || (spaceToo && s[0] == ' ') {
        assert e[2..] == Escape(s[1..], spaceToo);
      } else {
        assert e[1..] == Escape(s[1..], spaceToo);
      }
    }
  }

  /** Text without special characters is left alone; for text without
      spaces the two escapes agree. */
  lemma {:induction false} EscapePlain(s: string)
    ensures (forall i :: 0 <= i < |s| ==> !IsArgSpecial(s[i])) ==> ShellEscape(s) == s
    ensures ' ' !in s ==> ShellEscape(s) == ShellEscapeCommand(s)
    decreases |s|
  {
    if |s| > 0 {
      EscapePlain(s[1..]);
      assert forall i :: 1 <= i < |s| ==> s[i] == s[1..][i - 1];
      assert [s[0]] + s[1..] == s;
    }
  }

  /* ---------------------------------------------------------------------- */
  /* Trimming output for the log                                             */
  /* ---------------------------------------------------------------------- */

  /** The longest output logged as it is: 256 KiB. */
  const MaxOutput: nat := 256 * 1024

  /** Python 2's `string.printable` in the C locale: the ASCII graphic
      characters, the space, and tab, newline, carriage return, vertical
      tab and form feed. */
  predicate IsPrintable(c: char) {
    32 <= c as int <= 126 || 9 <= c as int <= 13
  }

  function Printable(c: char): (d: char)
    ensures IsPrintable(d)
    ensures IsPrintable(c) ==> d == c
    ensures !IsPrintable(c) ==> d == '~'
  {
    if IsPrintable(c) then c else '~'
  }

  /** `trim_output`: output longer than `MaxOutput` keeps only its first and
      its last `MaxOutput / 2` characters; then every character that is not
      printable becomes `~`. The output is a Python 2 byte string, so one
      `char` here stands for one byte and lengths count bytes. */
  function TrimOutput(output: string): (r: string)
    ensures |output| <= MaxOutput ==> |r| == |output|
    ensures |output| > MaxOutput ==> |r| == MaxOutput
    ensures forall i :: 0 <= i < |r| ==> IsPrintable(r[i])
    ensures |output| <= MaxOutput ==> forall i :: 0 <= i < |r| ==> r[i] == Printable(output[i])
    ensures |output| > MaxOutput ==>
              (forall i :: 0 <= i < MaxOutput / 2 ==> r[i] == Printable(output[i]))
              && (forall i :: MaxOutput / 2 <= i < MaxOutput ==> r[i] == Printable(output[|output| - MaxOutput + i]))
  {
    var kept := if |output| > MaxOutput then output[..MaxOutput / 2] + output[|output| - MaxOutput / 2..] else output;
    seq(|kept|, i requires 0 <= i < |kept| => Printable(kept[i]))
  }

  /** Trimming twice is trimming once, and printable output that fits is
      logged unchanged. */
  lemma TrimOutputIdempotent(output: string)
    ensures TrimOutput(TrimOutput(output)) == TrimOutput(output)
    ensures |output| <= MaxOutput && (forall i :: 0 <= i < |output| ==> IsPrintable(output[i])) ==>
              TrimOutput(output) == output
  {
  }
}
