/**
 * The parts of Python's `str` behaviour that the session logic and the archive
 * layer rely on: prefix and suffix tests, `strip`, `split` on one character,
 * `splitlines`, `replace` of one character, ASCII `lower`, `os.path.basename`
 * on `/`-separated paths, and `int()` / `str()` on decimal integers.
 */
module PyStr {
  import opened Wrappers

  /** `s.startswith(p)` */
  predicate StartsWith(s: string, p: string) {
    |p| <= |s| && s[..|p|] == p
  }

  /** `s.endswith(p)` */
  predicate EndsWith(s: string, p: string) {
    |p| <= |s| && s[|s| - |p|..] == p
  }

  /** Python slicing `s[n:]` for n >= 0, which yields "" when n is past the end. */
  function Drop(s: string, n: nat): (r: string)
    ensures n <= |s| ==> r == s[n..]
    ensures n > |s| ==> r == ""
  {
    if n <= |s| then s[n..] else ""
  }

  /** The characters for which `str.isspace()` holds; these are what `strip()` removes. */
  predicate IsSpace(c: char) {
    || ('\t' <= c <= '\r')
    || ('\U{1C}' <= c <= ' ')
    || c == '\U{85}' || c == '\U{A0}' || c == '\U{1680}'
    || ('\U{2000}' <= c <= '\U{200A}')
    || c == '\U{2028}' || c == '\U{2029}' || c == '\U{202F}' || c == '\U{205F}' || c == '\U{3000}'
  }

  /**
   * The characters `int()` skips around its digits. CPython maps every
   * whitespace character from U+007F up to a space and copies lower ones
   * through, then skips only space and `\t` to `\r`; so this is `str.isspace()`
   * without the four separators U+001C to U+001F.
   */
  predicate IsIntSpace(c: char) {
    IsSpace(c) && !('\U{1C}' <= c <= '\U{1F}')
  }

  /** Which whitespace a trim removes: that of `str.strip()`, or that of `int()`. */
  datatype Whitespace = StrSpace | IntSpace

  predicate Blank(ws: Whitespace, c: char) {
    if ws == StrSpace then IsSpace(c) else IsIntSpace(c)
  }

  predicate AllBlank(ws: Whitespace, w: string) {
    forall i :: 0 <= i < |w| ==> Blank(ws, w[i])
  }

  /** `s.lstrip()` for the whitespace `ws`: drops the longest all-whitespace prefix. */
  function TrimLeft(s: string, ws: Whitespace): (r: string)
    ensures |r| <= |s| && r == s[|s| - |r|..]
    ensures forall i :: 0 <= i < |s| - |r| ==> Blank(ws, s[i])
    ensures r == [] || !Blank(ws, r[0])
  {
    if |s| > 0 && Blank(ws, s[0]) then
      var r := TrimLeft(s[1..], ws);
      assert s[1..][|s| - 1 - |r|..] == s[|s| - |r|..];
      assert forall i :: 0 <= i < |s| - |r| ==> Blank(ws, s[i]) by {
        forall i | 0 < i < |s| - |r| ensures Blank(ws, s[i]) {
          assert s[1..][i - 1] == s[i];
        }
      }
      r
    else
      assert s == s[0..];
      s
  }

  /** `s.rstrip()` for the whitespace `ws`: drops the longest all-whitespace suffix. */
  function TrimRight(s: string, ws: Whitespace): (r: string)
    ensures |r| <= |s| && r == s[..|r|]
    ensures forall i :: |r| <= i < |s| ==> Blank(ws, s[i])
    ensures r == [] || !Blank(ws, r[|r| - 1])
  {
    if |s| > 0 && Blank(ws, s[|s| - 1]) then
      var t := s[..|s| - 1];
      var r := TrimRight(t, ws);
      assert forall i :: |r| <= i < |s| ==> Blank(ws, s[i]) by {
        forall i | |r| <= i < |t| ensures Blank(ws, s[i]) {
          assert t[i] == s[i];
        }
      }
      r
    else
      assert s == s[..|s|];
      s
  }

  /** `s.strip()` */
  function Strip(s: string): (r: string)
    ensures r == [] || (!IsSpace(r[0]) && !IsSpace(r[|r| - 1]))
    ensures |r| <= |s|
  {
    TrimRight(TrimLeft(s, StrSpace), StrSpace)
  }

  /** The whitespace `int()` ignores around its digits, removed from both ends. */
  function IntStrip(s: string): (r: string)
    ensures r == [] || (!IsIntSpace(r[0]) && !IsIntSpace(r[|r| - 1]))
    ensures |r| <= |s|
  {
    TrimRight(TrimLeft(s, IntSpace), IntSpace)
  }

  /** A slice holds no character its sequence lacks. */
  lemma SliceKeepsAbsent(s: string, c: char, i: nat, j: nat)
    requires i <= j <= |s| && c !in s
    ensures c !in s[i..j]
  {
    forall k | 0 <= k < j - i ensures s[i..j][k] != c {
      assert s[i..j][k] == s[i + k];
    }
  }

  /** A suffix of `s` cut down to a prefix, and then a suffix of that, hold no character `s` lacks. */
  lemma NestedSlicesKeepAbsent(s: string, c: char, l: string, r: string, n: nat)
    requires c !in s
    requires |l| <= |s| && l == s[|s| - |l|..] && |r| <= |l| && r == l[..|r|]
    ensures c !in r && c !in Drop(r, n)
  {
    SliceKeepsAbsent(s, c, |s| - |l|, |s|);
    assert l == s[|s| - |l|..|s|];
    SliceKeepsAbsent(l, c, 0, |r|);
    SliceKeepsAbsent(r, c, if n <= |r| then n else |r|, |r|);
  }

  /** Stripping, and then dropping a prefix, never introduces a character. */
  lemma StripKeepsAbsent(s: string, c: char, n: nat)
    requires c !in s
    ensures c !in Strip(s) && c !in Drop(Strip(s), n)
  {
    var l := TrimLeft(s, StrSpace);
    var r := TrimRight(l, StrSpace);
    NestedSlicesKeepAbsent(s, c, l, r, n);
  }

  /** `s.split(sep)` for a one-character separator: the pieces between separators, always at least one. */
  function Split(s: string, sep: char): (parts: seq<string>)
    ensures |parts| >= 1
    ensures forall i :: 0 <= i < |parts| ==> sep !in parts[i]
  {
    if |s| == 0 then [""]
    else
      var rest := Split(s[1..], sep);
      if s[0] == sep then [""] + rest
      else [[s[0]] + rest[0]] + rest[1..]
  }

  /** `sep.join(parts)` */
  function Join(parts: seq<string>, sep: char): string
    requires |parts| >= 1
  {
    if |parts| == 1 then parts[0] else parts[0] + [sep] + Join(parts[1..], sep)
  }

  /** Splitting and joining again gives back the text. */
  lemma {:induction false} JoinSplit(s: string, sep: char)
    ensures Join(Split(s, sep), sep) == s
  {
    if |s| > 0 {
      JoinSplit(s[1..], sep);
      var rest := Split(s[1..], sep);
      if s[0] != sep && |rest| > 1 {
        assert ([[s[0]] + rest[0]] + rest[1..])[1..] == rest[1..];
      }
    }
  }

  /** Joining pieces that hold no separator and splitting again gives back the pieces. */
  lemma {:induction false} SplitJoin(parts: seq<string>, sep: char)
    requires |parts| >= 1
    requires forall i :: 0 <= i < |parts| ==> sep !in parts[i]
    ensures Split(Join(parts, sep), sep) == parts
  {
    if |parts| == 1 {
      SplitNoSeparator(parts[0], sep);
    } else {
      SplitJoin(parts[1..], sep);
      SplitAfterPiece(parts[0], Join(parts[1..], sep), sep);
      assert [parts[0]] + parts[1..] == parts;
    }
  }

  lemma {:induction false} SplitNoSeparator(s: string, sep: char)
    requires sep !in s
    ensures Split(s, sep) == [s]
  {
    if |s| > 0 {
      SplitNoSeparator(s[1..], sep);
      assert [s[0]] + s[1..] == s;
    }
  }

  lemma {:induction false} SplitAfterPiece(p: string, t: string, sep: char)
    requires sep !in p
    ensures Split(p + [sep] + t, sep) == [p] + Split(t, sep)
  {
    if |p| == 0 {
      assert p + [sep] + t == [sep] + t;
      assert ([sep] + t)[1..] == t;
    } else {
      SplitAfterPiece(p[1..], t, sep);
      assert (p + [sep] + t)[1..] == p[1..] + [sep] + t;
      assert [p[0]] + p[1..] == p;
    }
  }

  /** The characters `str.splitlines()` breaks lines at. */
  predicate IsLineBreak(c: char) {
    || ('\n' <= c <= '\r')
    || ('\U{1C}' <= c <= '\U{1E}')
    || c == '\U{85}' || c == '\U{2028}' || c == '\U{2029}'
  }

  /** The index of the first line break in `s`, or |s| when there is none. */
  function LineEnd(s: string): (k: nat)
    ensures k <= |s|
    ensures k < |s| ==> IsLineBreak(s[k])
    ensures forall i :: 0 <= i < k ==> !IsLineBreak(s[i])
  {
    if |s| == 0 || IsLineBreak(s[0]) then 0 else 1 + LineEnd(s[1..])
  }

  /**
   * `s.splitlines()`: the text between line breaks, where "\r\n" is one break;
   * a break at the very end does not start an empty last line.
   */
  function SplitLines(s: string): (lines: seq<string>)
    ensures forall i, j :: 0 <= i < |lines| && 0 <= j < |lines[i]| ==> !IsLineBreak(lines[i][j])
    ensures s == "" <==> lines == []
    decreases |s|
  {
    if |s| == 0 then []
    else
      var k := LineEnd(s);
      if k == |s| then [s]
      else
        var skip := if s[k] == '\r' && k + 1 < |s| && s[k + 1] == '\n' then 2 else 1;
        [s[..k]] + SplitLines(s[k + skip..])
  }

  /** Text with no line break in it. */
  predicate OneLine(s: string) {
    forall i :: 0 <= i < |s| ==> !IsLineBreak(s[i])
  }

  lemma OneLineConcat(a: string, b: string)
    requires OneLine(a) && OneLine(b)
    ensures OneLine(a + b)
  {
    assert forall i :: |a| <= i < |a + b| ==> (a + b)[i] == b[i - |a|];
  }

  lemma {:induction false} LineEndAt(a: string, b: string)
    requires OneLine(a)
    requires |b| > 0 ==> IsLineBreak(b[0])
    ensures LineEnd(a + b) == |a|
  {
    if |a| > 0 {
      assert (a + b)[1..] == a[1..] + b;
      LineEndAt(a[1..], b);
    } else {
      assert a + b == b;
    }
  }

  /** Lines without breaks, the last one non-empty, joined with "\n" split back into the same lines. */
  lemma {:induction false} SplitLinesJoin(lines: seq<string>)
    requires |lines| >= 1 && lines[|lines| - 1] != ""
    requires forall i :: 0 <= i < |lines| ==> OneLine(lines[i])
    ensures SplitLines(Join(lines, '\n')) == lines
  {
    if |lines| == 1 {
      LineEndAt(lines[0], "");
      assert lines[0] + "" == lines[0];
    } else {
      var tail := lines[1..];
      assert tail[|tail| - 1] == lines[|lines| - 1];
      assert forall i :: 0 <= i < |tail| ==> OneLine(tail[i]) by {
        forall i | 0 <= i < |tail| ensures OneLine(tail[i]) {
          assert tail[i] == lines[i + 1];
        }
      }
      SplitLinesJoin(tail);
      SplitLinesJoinStep(lines);
    }
  }

  lemma SplitLinesJoinStep(lines: seq<string>)
    requires |lines| >= 2 && OneLine(lines[0])
    requires SplitLines(Join(lines[1..], '\n')) == lines[1..]
    ensures SplitLines(Join(lines, '\n')) == lines
  {
    var tail := lines[1..];
    assert Join(lines, '\n') == lines[0] + ['\n'] + Join(tail, '\n');
    SplitLinesAtBreak(lines[0], Join(tail, '\n'));
    assert [lines[0]] + tail == lines;
  }

  /** A line followed by "\n" is split off as the first line. */
  lemma SplitLinesAtBreak(a: string, rest: string)
    requires OneLine(a)
    ensures SplitLines(a + ['\n'] + rest) == [a] + SplitLines(rest)
  {
    var s := a + ['\n'] + rest;
    assert s == a + (['\n'] + rest);
    LineEndAt(a, ['\n'] + rest);
    assert s[..|a|] == a && s[|a|] == '\n';
    assert s[|a| + 1..] == rest;
  }

  /** Two lines joined with "\n" split back into the two lines. */
  lemma SplitTwoLines(a: string, b: string)
    requires OneLine(a) && OneLine(b) && b != ""
    ensures SplitLines(a + "\n" + b) == [a, b]
  {
    assert a + "\n" + b == Join([a, b], '\n');
    SplitLinesJoin([a, b]);
  }

  /** `s.replace(from, to)` for one-character arguments. */
  function ReplaceChar(s: string, from: char, to: char): (r: string)
    ensures |r| == |s|
    ensures forall i :: 0 <= i < |s| ==> r[i] == if s[i] == from then to else s[i]
  {
    if |s| == 0 then "" else [if s[0] == from then to else s[0]] + ReplaceChar(s[1..], from, to)
  }

  /** `c.lower()` for ASCII letters. */
  function LowerChar(c: char): char {
    if 'A' <= c <= 'Z' then (c as int + 32) as char else c
  }

  /** `s.lower()`, folding ASCII letters only. */
  function Lower(s: string): (r: string)
    ensures |r| == |s|
    ensures forall i :: 0 <= i < |s| ==> r[i] == LowerChar(s[i])
  {
    if |s| == 0 then "" else [LowerChar(s[0])] + Lower(s[1..])
  }

  /**
   * `os.path.basename(p)` with `/` as separator: the text after the last `/`,
   * that is, the longest suffix of `p` without a `/`.
   */
  function BaseName(p: string): (b: string)
    ensures '/' !in b
    ensures |b| <= |p|
  {
    if |p| == 0 || p[|p| - 1] == '/' then ""
    else BaseName(p[..|p| - 1]) + [p[|p| - 1]]
  }

  /** The base name is a suffix of the path, and, unless it is the whole path, a `/` stands just before it. */
  lemma {:induction false} BaseNameIsLastPart(p: string)
    ensures var b := BaseName(p);
            && b == p[|p| - |b|..]
            && (|b| < |p| ==> p[|p| - |b| - 1] == '/')
  {
    if |p| > 0 && p[|p| - 1] != '/' {
      var init := p[..|p| - 1];
      BaseNameIsLastPart(init);
      var b0 := BaseName(init);
      assert BaseName(p) == b0 + [p[|p| - 1]];
      assert init[|init| - |b0|..] + [p[|p| - 1]] == p[|p| - |b0| - 1..];
    }
  }

  predicate IsDigit(c: char) {
    '0' <= c <= '9'
  }

  /** The value of a string of decimal digits, most significant first. */
  function DigitsValue(s: string): nat
    requires forall i :: 0 <= i < |s| ==> IsDigit(s[i])
  {
    if |s| == 0 then 0
    else
      assert IsDigit(s[|s| - 1]);
      DigitsValue(s[..|s| - 1]) * 10 + (s[|s| - 1] as int - '0' as int)
  }

  /** The digit part `int()` accepts: decimal digits, with single underscores allowed between two digits. */
  predicate IsDigitRun(s: string) {
    && |s| > 0 && IsDigit(s[0]) && IsDigit(s[|s| - 1])
    && (forall i :: 0 <= i < |s| ==> IsDigit(s[i]) || s[i] == '_')
    && (forall i :: 0 <= i < |s| - 1 ==> s[i] == '_' ==> s[i + 1] != '_')
  }

  /** The digits of a digit run, underscores removed. */
  function RemoveUnderscores(s: string): (r: string)
    requires forall i :: 0 <= i < |s| ==> IsDigit(s[i]) || s[i] == '_'
    ensures forall i :: 0 <= i < |r| ==> IsDigit(r[i])
    ensures (forall i :: 0 <= i < |s| ==> s[i] != '_') ==> r == s
  {
    if |s| == 0 then ""
    else (if s[0] == '_' then "" else [s[0]]) + RemoveUnderscores(s[1..])
  }

  /**
   * The most decimal digits `int()` converts (CPython's default
   * `sys.int_info.default_max_str_digits`); longer input raises `ValueError`.
   * Underscores do not count toward the limit.
   */
  const MaxStrDigits := 4300

  /** An optional sign and a digit run, as `int()` reads them once whitespace is stripped. */
  function ParseSigned(t: string): (r: Option<int>)
    ensures r.Some? ==> |t| > 0
    ensures r.Some? && IsDigit(t[0]) ==> r.value >= 0
  {
    var sign := if |t| > 0 && (t[0] == '+' || t[0] == '-') then 1 else 0;
    var digits := t[sign..];
    if !IsDigitRun(digits) then None
    else if |RemoveUnderscores(digits)| > MaxStrDigits then None
    else
      var value := DigitsValue(RemoveUnderscores(digits));
      if sign == 1 && t[0] == '-' then Some(0 - value) else Some(value)
  }

  /** What `int()` keeps of text made only of `str.isspace()` characters is empty or starts with whitespace. */
  lemma IntStripBlank(s: string)
    ensures AllBlank(StrSpace, s) ==> IntStrip(s) == [] || IsSpace(IntStrip(s)[0])
  {
    var l := TrimLeft(s, IntSpace);
    var r := TrimRight(l, IntSpace);
    if AllBlank(StrSpace, s) && |r| > 0 {
      assert r[0] == l[0] == s[|s| - |l|];
    }
  }

  /**
   * `int(s)` in base 10: the whitespace `int()` skips is ignored at both ends;
   * any text that is not then a signed digit run fails.
   */
  function ParseInt(s: string): (r: Option<int>)
    ensures AllBlank(StrSpace, s) ==> r.None?
  {
    IntStripBlank(s);
    ParseSigned(IntStrip(s))
  }

  /** Trimming text that neither starts nor ends with the whitespace leaves it as it is. */
  lemma TrimUntrimmed(s: string, ws: Whitespace)
    requires |s| > 0 && !Blank(ws, s[0]) && !Blank(ws, s[|s| - 1])
    ensures TrimLeft(s, ws) == s && TrimRight(s, ws) == s
  {
    var l := TrimLeft(s, ws);
    assert |l| == |s| && l == s;
    var r := TrimRight(l, ws);
    assert |r| == |l|;
  }

  /** A string that neither starts nor ends with whitespace is its own `strip()`, and `int()` strips nothing from it. */
  lemma StripUntrimmed(s: string)
    requires |s| > 0 && !IsSpace(s[0]) && !IsSpace(s[|s| - 1])
    ensures Strip(s) == s && IntStrip(s) == s
  {
    TrimUntrimmed(s, StrSpace);
    TrimUntrimmed(s, IntSpace);
  }

  /** `strip()` removes a separator U+001C to U+001F in front of a run of digits. */
  lemma StripSeparator(c: char, d: string)
    requires '\U{1C}' <= c <= '\U{1F}'
    requires |d| > 0 && forall i :: 0 <= i < |d| ==> IsDigit(d[i])
    ensures Strip([c] + d) == d
  {
    var t := [c] + d;
    assert t[1..] == d;
    assert IsDigit(d[0]) && IsDigit(d[|d| - 1]);
    TrimUntrimmed(d, StrSpace);
    assert TrimLeft(t, StrSpace) == d;
  }

  /** `int()` fails on text that starts with neither a sign, a digit nor whitespace it skips. */
  lemma ParseNotNumeric(t: string)
    requires |t| > 0 && !IsIntSpace(t[0]) && !IsIntSpace(t[|t| - 1])
    requires t[0] != '+' && t[0] != '-' && !IsDigit(t[0])
    ensures ParseInt(t) == None
  {
    TrimUntrimmed(t, IntSpace);
    assert t[0..] == t;
    assert !IsDigitRun(t);
  }

  /**
   * The separators U+001C to U+001F are whitespace to `strip()` but not to
   * `int()`: after one of them, a run of digits is what `strip()` leaves, yet
   * `int()` fails.
   */
  lemma SeparatorIsNotIntSpace(c: char, d: string)
    requires '\U{1C}' <= c <= '\U{1F}'
    requires |d| > 0 && forall i :: 0 <= i < |d| ==> IsDigit(d[i])
    ensures Strip([c] + d) == d
    ensures ParseInt([c] + d) == None
  {
    StripSeparator(c, d);
    var t := [c] + d;
    assert t[0] == c && t[|t| - 1] == d[|d| - 1];
    assert IsDigit(d[|d| - 1]);
    ParseNotNumeric(t);
  }

  /** `str(n)` for a non-negative integer. */
  function NatToString(n: nat): (s: string)
    ensures |s| > 0 && forall i :: 0 <= i < |s| ==> IsDigit(s[i])
  {
    (if n < 10 then "" else NatToString(n / 10)) + [('0' as int + n % 10) as char]
  }

  /** Reading back what `str` writes gives the number. */
  lemma {:induction false} DigitsOfNatToString(n: nat)
    ensures DigitsValue(NatToString(n)) == n
  {
    var s := NatToString(n);
    assert s[..|s| - 1] == if n < 10 then "" else NatToString(n / 10);
    if n >= 10 {
      DigitsOfNatToString(n / 10);
    }
  }

  /** A plain run of decimal digits reads as its value. */
  lemma ParseDigits(s: string)
    requires |s| > 0 && forall i :: 0 <= i < |s| ==> IsDigit(s[i])
    requires |s| <= MaxStrDigits
    ensures ParseSigned(s) == Some(DigitsValue(s))
  {
    assert s[0] != '+' && s[0] != '-';
    assert s[0..] == s;
    assert forall i :: 0 <= i < |s| ==> s[i] != '_';
    assert IsDigitRun(s);
    assert RemoveUnderscores(s) == s;
  }

  /** `int(str(n)) == n`, for the numbers whose decimal form is within the digit limit. */
  lemma ParseNatToString(n: nat)
    requires |NatToString(n)| <= MaxStrDigits
    ensures ParseInt(NatToString(n)) == Some(n)
  {
    DigitsOfNatToString(n);
    var s := NatToString(n);
    StripUntrimmed(s);
    ParseDigits(s);
  }

  /** Numbers below 100 print with at most two digits. */
  lemma NatToStringBelow100(n: nat)
    requires n < 100
    ensures |NatToString(n)| <= 2
  {
    if n >= 10 {
      assert |NatToString(n / 10)| == 1;
    }
  }

  /** How `int()` reads a digit run once stripped: its value, unless it has more digits than the limit. */
  lemma ParseRun(t: string)
    requires IsDigitRun(t)
    ensures ParseSigned(t) == if |RemoveUnderscores(t)| > MaxStrDigits then None else Some(DigitsValue(RemoveUnderscores(t)))
  {
    assert t[0..] == t;
  }

  /** A sign in front of unsigned text negates or keeps the value it reads as. */
  lemma ParseSign(sign: char, d: string, v: int)
    requires sign == '-' || sign == '+'
    requires |d| > 0 && IsDigit(d[0]) && ParseSigned(d) == Some(v)
    ensures ParseSigned([sign] + d) == Some(if sign == '-' then 0 - v else v)
  {
    assert ([sign] + d)[1..] == d;
    assert d[0..] == d;
  }

  /** A sign before the digits of `n`: `int("-" + str(n)) == -n` and `int("+" + str(n)) == n`. */
  lemma ParseSignedNatToString(n: nat, sign: char)
    requires sign == '-' || sign == '+'
    requires |NatToString(n)| <= MaxStrDigits
    ensures ParseInt([sign] + NatToString(n)) == Some(if sign == '-' then 0 - (n as int) else n as int)
  {
    var digits := NatToString(n);
    var t := [sign] + digits;
    SignedDigitsStripped(sign, digits);
    ParseDigits(digits);
    DigitsOfNatToString(n);
    ParseSign(sign, digits, n);
  }

  /** `int()` strips nothing from a sign followed by digits. */
  lemma SignedDigitsStripped(sign: char, d: string)
    requires sign == '-' || sign == '+'
    requires |d| > 0 && forall i :: 0 <= i < |d| ==> IsDigit(d[i])
    ensures IntStrip([sign] + d) == [sign] + d
  {
    var t := [sign] + d;
    assert t[0] == sign && t[|t| - 1] == d[|d| - 1];
    assert IsDigit(d[|d| - 1]);
    TrimUntrimmed(t, IntSpace);
  }

  /** More digits than the limit, underscores not counted, make `int()` fail. */
  lemma ParseTooManyDigits(s: string)
    requires IsDigitRun(s) && |RemoveUnderscores(s)| > MaxStrDigits
    ensures ParseInt(s) == None
  {
    StripUntrimmed(s);
    ParseRun(s);
  }

  /** Removing the underscores of a digit run leaves a plain, non-empty run of digits. */
  lemma RemoveUnderscoresOfRun(s: string)
    requires IsDigitRun(s)
    ensures IsDigitRun(RemoveUnderscores(s)) && RemoveUnderscores(RemoveUnderscores(s)) == RemoveUnderscores(s)
  {
    var r := RemoveUnderscores(s);
    assert r == [s[0]] + RemoveUnderscores(s[1..]);
  }

  /** A digit run reads as the same number once its underscores are removed. */
  lemma ParseUnderscores(s: string)
    requires IsDigitRun(s)
    ensures ParseInt(s) == ParseInt(RemoveUnderscores(s))
  {
    var r := RemoveUnderscores(s);
    RemoveUnderscoresOfRun(s);
    StripUntrimmed(s);
    StripUntrimmed(r);
    ParseRun(s);
    ParseRun(r);
  }

  /** Leading whitespace does not change `lstrip()`. */
  lemma {:induction false} TrimLeftSpacePrefix(w: string, x: string, ws: Whitespace)
    requires AllBlank(ws, w)
    ensures TrimLeft(w + x, ws) == TrimLeft(x, ws)
  {
    if |w| > 0 {
      assert (w + x)[0] == w[0];
      assert (w + x)[1..] == w[1..] + x;
      assert AllBlank(ws, w[1..]) by {
        forall i | 0 <= i < |w[1..]| ensures Blank(ws, w[1..][i]) {
          assert w[1..][i] == w[i + 1];
        }
      }
      TrimLeftSpacePrefix(w[1..], x, ws);
    } else {
      assert w + x == x;
    }
  }

  /** Trailing whitespace does not change `rstrip()`. */
  lemma {:induction false} TrimRightSpaceSuffix(x: string, w: string, ws: Whitespace)
    requires AllBlank(ws, w)
    ensures TrimRight(x + w, ws) == TrimRight(x, ws)
  {
    if |w| > 0 {
      var init := w[..|w| - 1];
      assert (x + w)[|x + w| - 1] == w[|w| - 1];
      assert (x + w)[..|x + w| - 1] == x + init;
      assert AllBlank(ws, init) by {
        forall i | 0 <= i < |init| ensures Blank(ws, init[i]) {
          assert init[i] == w[i];
        }
      }
      TrimRightSpaceSuffix(x, init, ws);
    } else {
      assert x + w == x;
    }
  }

  /** Text that has a non-space character keeps what follows it through `lstrip()`. */
  lemma {:induction false} TrimLeftAppend(x: string, w: string, ws: Whitespace)
    requires TrimLeft(x, ws) != ""
    ensures TrimLeft(x + w, ws) == TrimLeft(x, ws) + w
  {
    assert |x| > 0;
    assert (x + w)[0] == x[0];
    if Blank(ws, x[0]) {
      assert (x + w)[1..] == x[1..] + w;
      TrimLeftAppend(x[1..], w, ws);
    } else {
      assert x[0..] == x && (x + w)[0..] == x + w;
    }
  }

  /**
   * Surrounding whitespace of the kind `int()` skips is ignored:
   * `int(w1 + s + w2) == int(s)` when `w1` and `w2` hold only such characters.
   */
  lemma ParseIntPadded(w1: string, s: string, w2: string)
    requires AllBlank(IntSpace, w1) && AllBlank(IntSpace, w2)
    ensures ParseInt(w1 + s + w2) == ParseInt(s)
  {
    assert w1 + s + w2 == w1 + (s + w2);
    TrimLeftSpacePrefix(w1, s + w2, IntSpace);
    if TrimLeft(s, IntSpace) != "" {
      TrimLeftAppend(s, w2, IntSpace);
      TrimRightSpaceSuffix(TrimLeft(s, IntSpace), w2, IntSpace);
    } else {
      assert AllBlank(IntSpace, s + w2) by {
        forall i | 0 <= i < |s + w2| ensures Blank(IntSpace, (s + w2)[i]) {
          if i >= |s| {
            assert (s + w2)[i] == w2[i - |s|];
          }
        }
      }
      TrimLeftSpacePrefix(s + w2, "", IntSpace);
      assert s + w2 + "" == s + w2;
    }
  }
}
