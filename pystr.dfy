/**
 * The parts of Python's `str` that the component-state code relies on:
 * `str.strip()` with no argument, the first line that `readline()` returns
 * from a file opened in text mode, and `str.endswith`.
 */
module PyStr {

  /** `c.isspace()`: the characters Python's `str.strip()` removes. */
  predicate IsSpace(c: char) {
    c == ' ' || ('\t' <= c <= '\r') || ('\U{1c}' <= c <= '\U{1f}')
    || c == '\U{85}' || c == '\U{a0}' || c == '\U{1680}'
    || ('\U{2000}' <= c <= '\U{200a}') || c == '\U{2028}' || c == '\U{2029}'
    || c == '\U{202f}' || c == '\U{205f}' || c == '\U{3000}'
  }

  /** A line ends at '\n'; text mode with universal newlines also ends it at '\r'. */
  predicate IsLineBreak(c: char) {
    c == '\n' || c == '\r'
  }

  predicate NoLineBreak(s: string) {
    '\n' !in s && '\r' !in s
  }

  /** Neither end of `s` is whitespace. */
  predicate Stripped(s: string) {
    s == [] || (!IsSpace(s[0]) && !IsSpace(s[|s| - 1]))
  }

  /** Every character of `s` before `i` and from `j` on is whitespace. */
  predicate SpaceOutside(s: string, i: int, j: int) {
    0 <= i <= j <= |s| &&
    (forall k :: 0 <= k < i ==> IsSpace(s[k])) &&
    (forall k :: j <= k < |s| ==> IsSpace(s[k]))
  }

  /**
   * Reference definition of strip: `r` is the part of `s` between a
   * whitespace-only prefix and a whitespace-only suffix, and neither end of
   * `r` is whitespace.
   */
  ghost predicate IsStripOf(r: string, s: string) {
    Stripped(r) && exists i, j :: SpaceOutside(s, i, j) && r == s[i..j]
  }

  /** `s.lstrip()` */
  function TrimStart(s: string): (r: string)
    ensures |r| <= |s| && r == s[|s| - |r|..]
    ensures forall k :: 0 <= k < |s| - |r| ==> IsSpace(s[k])
    ensures r == [] || !IsSpace(r[0])
  {
    if s != [] && IsSpace(s[0]) then
      var r := TrimStart(s[1..]);
      assert s[1..][|s| - 1 - |r|..] == s[|s| - |r|..];
      r
    else s
  }

  /** `s.rstrip()` */
  function TrimEnd(s: string): (r: string)
    ensures |r| <= |s| && r == s[..|r|]
    ensures forall k :: |r| <= k < |s| ==> IsSpace(s[k])
    ensures r == [] || !IsSpace(r[|r| - 1])
  {
    if s != [] && IsSpace(s[|s| - 1]) then TrimEnd(s[..|s| - 1]) else s
  }

  /** `s.strip()` */
  function Strip(s: string): (r: string)
    ensures |r| <= |s| && Stripped(r)
  {
    TrimEnd(TrimStart(s))
  }

  /** Strip meets the reference definition. */
  lemma StripMeetsReference(s: string)
    ensures IsStripOf(Strip(s), s)
  {
    var t := TrimStart(s);
    var r := TrimEnd(t);
    var i := |s| - |t|;
    assert SpaceOutside(s, i, i + |r|) && r == s[i..i + |r|];
    if r != [] {
      assert t[0] == r[0];
    }
  }

  /** The stripped text has no line break when the text has none. */
  lemma StripKeepsNoLineBreak(s: string)
    requires NoLineBreak(s)
    ensures NoLineBreak(Strip(s))
  {
    StripMeetsReference(s);
    var i, j :| SpaceOutside(s, i, j) && Strip(s) == s[i..j];
  }

  /** Strip has one possible result: IsStripOf determines it. */
  lemma StripUnique(a: string, b: string, s: string)
    requires IsStripOf(a, s) && IsStripOf(b, s)
    ensures a == b
  {
    var i, i' :| SpaceOutside(s, i, i') && a == s[i..i'];
    var j, j' :| SpaceOutside(s, j, j') && b == s[j..j'];
    if a != [] && b != [] {
      assert i == j by {
        assert !IsSpace(s[i]) && !IsSpace(s[j]) by {
          assert a[0] == s[i] && b[0] == s[j];
        }
      }
      assert i' == j' by {
        assert !IsSpace(s[i' - 1]) && !IsSpace(s[j' - 1]) by {
          assert a[|a| - 1] == s[i' - 1] && b[|b| - 1] == s[j' - 1];
        }
      }
    }
  }

  /** Text with no whitespace at either end strips to itself. */
  lemma StripOfStripped(s: string)
    requires Stripped(s)
    ensures Strip(s) == s
  {
    StripMeetsReference(s);
    assert SpaceOutside(s, 0, |s|) && s == s[0..|s|];
    StripUnique(Strip(s), s, s);
  }

  /** Stripping twice is stripping once. */
  lemma StripIdempotent(s: string)
    ensures Strip(Strip(s)) == Strip(s)
  {
    StripMeetsReference(s);
    StripOfStripped(Strip(s));
  }

  /**
   * The first line of `s` as `readline()` reads it, without its line
   * break: the longest prefix of `s` that holds no line break.
   */
  function FirstLine(s: string): (r: string)
    ensures |r| <= |s| && r == s[..|r|]
    ensures NoLineBreak(r)
    ensures |r| < |s| ==> IsLineBreak(s[|r|])
  {
    if s == [] || IsLineBreak(s[0]) then [] else [s[0]] + FirstLine(s[1..])
  }

  /** A line followed by a line break reads back as that line. */
  lemma {:induction false} FirstLineOfTerminated(line: string, rest: string)
    requires NoLineBreak(line)
    requires rest != [] && IsLineBreak(rest[0])
    ensures FirstLine(line + rest) == line
  {
    if line != [] {
      assert (line + rest)[1..] == line[1..] + rest;
      FirstLineOfTerminated(line[1..], rest);
    }
  }

  /** `s.endswith(suffix)`: `s` is some text followed by `suffix`. */
  function EndsWith(s: string, suffix: string): (b: bool)
    ensures suffix == [] ==> b
    ensures |s| < |suffix| ==> !b
    ensures b ==> s == s[..|s| - |suffix|] + suffix
  {
    |suffix| <= |s| && s[|s| - |suffix|..] == suffix
  }

  /** Conversely, any text followed by `suffix` ends with it. */
  lemma EndsWithAppend(prefix: string, suffix: string)
    ensures EndsWith(prefix + suffix, suffix)
  {
    assert (prefix + suffix)[|prefix|..] == suffix;
  }
}
