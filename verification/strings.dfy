/** The handful of Python `str` operations the test driver relies on, over
    `string` (a sequence of characters; the driver works on byte strings, and
    only ASCII characters matter to any of these operations).
 */
module Strings {
  import opened Wrappers

  /** Python's `str.isspace()` for one byte: space, tab, newline, carriage
      return, vertical tab and form feed. */
  predicate IsSpace(c: char) {
    c == ' ' || c == '\t' || c == '\n' || c == '\r' || c as int == 11 || c as int == 12
  }

  /** A string that `strip()` turns into the empty string. */
  predicate IsBlank(s: string) {
    forall i :: 0 <= i < |s| ==> IsSpace(s[i])
  }

  predicate StartsWith(s: string, prefix: string) {
    |prefix| <= |s| && s[..|prefix|] == prefix
  }

  predicate EndsWith(s: string, suffix: string) {
    |suffix| <= |s| && s[|s| - |suffix|..] == suffix
  }

  /** `s.rstrip()`: drops trailing whitespace, and nothing else. */
  function RStrip(s: string): (r: string)
    ensures |r| <= |s| && r == s[..|r|]
    ensures IsBlank(s[|r|..])
    ensures r == [] || !IsSpace(r[|r| - 1])
  {
    if |s| > 0 && IsSpace(s[|s| - 1]) then
      var r := RStrip(s[..|s| - 1]);
      BlankBeforeSpace(s, |r|);
      r
    else
      s
  }

  /** Dropping a leading space: a suffix of the rest is a suffix of the
      whole, and the blank prefix before it grows by the space. */
  lemma BlankAfterSpace(s: string, m: nat)
    requires 0 < |s| && IsSpace(s[0]) && m <= |s| - 1
    requires IsBlank(s[1..][..|s| - 1 - m])
    ensures s[1..][|s| - 1 - m..] == s[|s| - m..]
    ensures IsBlank(s[..|s| - m])
  {
    var b := s[..|s| - m];
    forall i | 0 <= i < |b| ensures IsSpace(b[i]) {
      if i > 0 {
        assert b[i] == s[1..][..|s| - 1 - m][i - 1];
      }
    }
  }

  /** Dropping a trailing space: a prefix of the rest is a prefix of the
      whole, and the blank suffix after it grows by the space. */
  lemma BlankBeforeSpace(s: string, m: nat)
    requires 0 < |s| && IsSpace(s[|s| - 1]) && m <= |s| - 1
    requires IsBlank(s[..|s| - 1][m..])
    ensures s[..|s| - 1][..m] == s[..m]
    ensures IsBlank(s[m..])
  {
    var b := s[m..];
    forall i | 0 <= i < |b| ensures IsSpace(b[i]) {
      if i < |b| - 1 {
        assert b[i] == s[..|s| - 1][m..][i];
      }
    }
  }

  /** `rstrip()` is idempotent and keeps a line blank exactly when it was. */
  lemma RStripIdempotent(s: string)
    ensures RStrip(RStrip(s)) == RStrip(s)
    ensures IsBlank(RStrip(s)) <==> IsBlank(s)
  {
    var t := RStrip(s);
    assert t == [] || !IsSpace(t[|t| - 1]);
    assert s == t + s[|t|..];
    if IsBlank(t) {
      forall i | 0 <= i < |s| ensures IsSpace(s[i]) {
        if i >= |t| {
          assert s[i] == s[|t|..][i - |t|];
        }
      }
    }
  }

  /** `s.lstrip()`: drops leading whitespace, and nothing else. */
  function LStrip(s: string): (r: string)
    ensures |r| <= |s| && r == s[|s| - |r|..]
    ensures IsBlank(s[..|s| - |r|])
    ensures r == [] || !IsSpace(r[0])
  {
    if |s| > 0 && IsSpace(s[0]) then
      var r := LStrip(s[1..]);
      BlankAfterSpace(s, |r|);
      r
    else
      s
  }

  /** `s.strip()`. */
  function Strip(s: string): (r: string)
    ensures r == [] <==> IsBlank(s)
    ensures r == [] || (!IsSpace(r[0]) && !IsSpace(r[|r| - 1]))
  {
    var t := RStrip(s);
    assert t == [] ==> IsBlank(s) by {
      if t == [] {
        assert s[|t|..] == s;
      }
    }
    LStrip(t)
  }

  /** `strip()` is idempotent. */
  lemma StripIdempotent(s: string)
    ensures Strip(Strip(s)) == Strip(s)
  {
    StripFixedPoint(Strip(s));
  }

  /** `strip()` only removes characters: one absent before is absent after. */
  lemma StripKeepsAbsent(s: string, c: char)
    requires c !in s
    ensures c !in Strip(s)
  {
    var t := RStrip(s);
    assert t == s[..|t|];
    assert c !in t by {
      forall i | 0 <= i < |t| ensures t[i] != c {
        assert t[i] == s[i];
      }
    }
    var r := LStrip(t);
    assert r == t[|t| - |r|..];
    forall i | 0 <= i < |r| ensures r[i] != c {
      assert r[i] == t[|t| - |r| + i];
    }
  }

  /** A string is left alone by `strip()` exactly when it has no whitespace
      at either end. */
  lemma StripFixedPoint(s: string)
    requires s == [] || (!IsSpace(s[0]) && !IsSpace(s[|s| - 1]))
    ensures Strip(s) == s
  {
    assert RStrip(s) == s;
  }

  /** `s.split(sep)` with an explicit one-character separator: every
      occurrence of `sep` separates two pieces, so the result is never empty
      and no piece contains the separator. */
  function Split(s: string, sep: char): (r: seq<string>)
    ensures |r| >= 1
    ensures forall k :: 0 <= k < |r| ==> sep !in r[k]
    ensures sep !in s ==> r == [s]
    ensures sep in s ==> |r| >= 2
  {
    if |s| == 0 then [""]
    else
      var rest := Split(s[1..], sep);
      if s[0] == sep then [""] + rest
      else
        assert [s[0]] + s[1..] == s;
        [[s[0]] + rest[0]] + rest[1..]
  }

  /** `sep.join(parts)`. */
  function Join(parts: seq<string>, sep: char): string
  {
    if |parts| == 0 then ""
    else if |parts| == 1 then parts[0]
    else parts[0] + [sep] + Join(parts[1..], sep)
  }

  /** Joining the pieces of a split restores the original string. */
  lemma {:induction false} JoinSplit(s: string, sep: char)
    ensures Join(Split(s, sep), sep) == s
  {
    if |s| > 0 {
      var rest := Split(s[1..], sep);
      JoinSplit(s[1..], sep);
      if s[0] != sep {
        JoinExtendFirst(s[0], rest, sep);
      } else {
        JoinEmptyFirst(rest, sep);
      }
      assert [s[0]] + s[1..] == s;
    }
  }

  /** Putting a character in front of the first piece puts it in front of
      the joined string. */
  lemma JoinExtendFirst(c: char, parts: seq<string>, sep: char)
    requires |parts| >= 1
    ensures Join([[c] + parts[0]] + parts[1..], sep) == [c] + Join(parts, sep)
  {
    var q := [[c] + parts[0]] + parts[1..];
    assert q[0] == [c] + parts[0] && q[1..] == parts[1..];
  }

  /** An empty first piece puts a separator in front of the joined rest. */
  lemma JoinEmptyFirst(parts: seq<string>, sep: char)
    requires |parts| >= 1
    ensures Join([""] + parts, sep) == [sep] + Join(parts, sep)
  {
    var q := [""] + parts;
    assert q[0] == "" && q[1..] == parts;
  }

  /** Splitting at the first separator: the text before it is the first
      piece and the rest is split on its own. */
  lemma {:induction false} SplitAtFirst(a: string, sep: char, b: string)
    requires sep !in a
    ensures Split(a + [sep] + b, sep) == [a] + Split(b, sep)
  {
    if |a| == 0 {
      assert a + [sep] + b == [sep] + b;
      assert ([sep] + b)[1..] == b;
    } else {
      assert (a + [sep] + b)[1..] == a[1..] + [sep] + b;
      SplitAtFirst(a[1..], sep, b);
      assert [a[0]] + a[1..] == a;
    }
  }

  /** Splitting pieces joined by the separator gives the pieces back, as long
      as no piece contains the separator. */
  lemma {:induction false} SplitJoin(parts: seq<string>, sep: char)
    requires |parts| >= 1
    requires forall k :: 0 <= k < |parts| ==> sep !in parts[k]
    ensures Split(Join(parts, sep), sep) == parts
  {
    if |parts| > 1 {
      SplitJoin(parts[1..], sep);
      SplitAtFirst(parts[0], sep, Join(parts[1..], sep));
      assert [parts[0]] + parts[1..] == parts;
    }
  }

  /** The longest prefix of `s` without whitespace. */
  function TakeWord(s: string): (r: string)
    ensures StartsWith(s, r)
    ensures forall i :: 0 <= i < |r| ==> !IsSpace(r[i])
    ensures |r| == |s| || IsSpace(s[|r|])
  {
    if |s| == 0 || IsSpace(s[0]) then "" else [s[0]] + TakeWord(s[1..])
  }

  /** `s.strip().split()[0]`: the first whitespace-separated token of `s`;
      `None` stands for the IndexError Python raises when there is none. */
  function FirstToken(s: string): (r: Option<string>)
    ensures r.None? <==> IsBlank(s)
    ensures r.Some? ==>
              exists k :: 0 <= k <= |s| && IsBlank(s[..k]) && StartsWith(s[k..], r.value)
    ensures r.Some? ==> |r.value| > 0 && forall i :: 0 <= i < |r.value| ==> !IsSpace(r.value[i])
  {
    var t := LStrip(s);
    if |t| == 0 then
      assert s[..|s|] == s;
      None
    else
      var w := TakeWord(t);
      assert s[|s| - |t|..] == t;
      Some(w)
  }

  /** `s.replace(pat, '')`: removes every occurrence of `pat`, scanning left
      to right without overlap, as Python does. */
  function RemoveAll(s: string, pat: string): (r: string)
    requires |pat| > 0
    ensures |r| <= |s|
    decreases |s|
  {
    if |s| == 0 then ""
    else if StartsWith(s, pat) then RemoveAll(s[|pat|..], pat)
    else [s[0]] + RemoveAll(s[1..], pat)
  }

  /** `pat` occurs somewhere in `s`. */
  predicate Contains(s: string, pat: string) {
    exists i :: 0 <= i <= |s| && StartsWith(s[i..], pat)
  }

  /** A string in which `pat` does not occur is not changed by removing it. */
  lemma {:induction false} RemoveAllAbsent(s: string, pat: string)
    requires |pat| > 0
    requires !Contains(s, pat)
    ensures RemoveAll(s, pat) == s
    decreases |s|
  {
    if |s| > 0 {
      assert s[0..] == s;
      assert !StartsWith(s, pat);
      assert !Contains(s[1..], pat) by {
        forall i | 0 <= i <= |s[1..]|
          ensures !StartsWith(s[1..][i..], pat)
        {
          assert s[1..][i..] == s[i + 1..];
        }
      }
      RemoveAllAbsent(s[1..], pat);
      assert [s[0]] + s[1..] == s;
    }
  }

  /** ASCII upper case, as Python 2's `str.upper()` in the C locale. */
  function UpperChar(c: char): (r: char)
    ensures 'a' <= c <= 'z' ==> 'A' <= r <= 'Z' && r as int + 32 == c as int
    ensures !('a' <= c <= 'z') ==> r == c
  {
    if 'a' <= c <= 'z' then (c as int - 32) as char else c
  }

  function Upper(s: string): (r: string)
    ensures |r| == |s|
    ensures forall i :: 0 <= i < |s| ==> r[i] == UpperChar(s[i])
  {
    if |s| == 0 then "" else [UpperChar(s[0])] + Upper(s[1..])
  }

  /** ASCII lower case, used for case-insensitive matching. */
  function LowerChar(c: char): (r: char)
    ensures 'A' <= c <= 'Z' ==> 'a' <= r <= 'z' && r as int == c as int + 32
    ensures !('A' <= c <= 'Z') ==> r == c
  {
    if 'A' <= c <= 'Z' then (c as int + 32) as char else c
  }

  function Lower(s: string): (r: string)
    ensures |r| == |s|
    ensures forall i :: 0 <= i < |s| ==> r[i] == LowerChar(s[i])
  {
    if |s| == 0 then "" else [LowerChar(s[0])] + Lower(s[1..])
  }
}
