/**
 * The pieces of Python's string, integer and path library that the scraper
 * leans on: `str.split()` with no argument, `str.join`, `str(int)`,
 * `int(str)` on a digit string, `str.replace('\\', '/')` and
 * `posixpath.join`.
 */
module Strings {

  // ---------------------------------------------------------------- whitespace

  /** Python's `str.isspace()` for one character: the separators `str.split()` uses. */
  predicate IsSpace(c: char) {
    || c == ' '
    || ('\t' <= c <= '\r')
    || ('\U{1C}' <= c <= '\U{1F}')
    || c == '\U{85}' || c == '\U{A0}' || c == '\U{1680}'
    || ('\U{2000}' <= c <= '\U{200A}')
    || c == '\U{2028}' || c == '\U{2029}' || c == '\U{202F}'
    || c == '\U{205F}' || c == '\U{3000}'
  }

  predicate NoSpace(s: string) {
    forall i :: 0 <= i < |s| ==> !IsSpace(s[i])
  }

  /** `s` with its leading whitespace removed. */
  function DropSpaces(s: string): (r: string)
    ensures |r| <= |s| && r == s[|s| - |r|..]
    ensures forall i :: 0 <= i < |s| - |r| ==> IsSpace(s[i])
    ensures r == [] || !IsSpace(r[0])
  {
    if |s| > 0 && IsSpace(s[0]) then DropSpaces(s[1..]) else s
  }

  /** The longest prefix of `s` that holds no whitespace. */
  function TakeWord(s: string): (w: string)
    ensures w <= s && NoSpace(w)
    ensures |w| == |s| || IsSpace(s[|w|])
  {
    if |s| > 0 && !IsSpace(s[0]) then [s[0]] + TakeWord(s[1..]) else []
  }

  /** A word as `str.split()` yields it: non-empty, without whitespace. */
  predicate IsWord(w: string) {
    |w| > 0 && NoSpace(w)
  }

  /** Python's `s.split()`: the maximal runs of non-whitespace, left to right. */
  function Split(s: string): (words: seq<string>)
    ensures forall w :: w in words ==> IsWord(w)
    decreases |s|
  {
    var t := DropSpaces(s);
    if t == [] then []
    else
      var w := TakeWord(t);
      [w] + Split(t[|w|..])
  }

  /** Python's `sep.join(words)`. */
  function Join(words: seq<string>, sep: string): string {
    if |words| == 0 then ""
    else if |words| == 1 then words[0]
    else words[0] + sep + Join(words[1..], sep)
  }

  lemma TakeWordOfWord(w: string, rest: string)
    requires NoSpace(w)
    requires rest == [] || IsSpace(rest[0])
    ensures TakeWord(w + rest) == w
  {
    if |w| > 0 {
      assert (w + rest)[1..] == w[1..] + rest;
      TakeWordOfWord(w[1..], rest);
    } else {
      assert w + rest == rest;
    }
  }

  lemma SplitSkipsSpace(c: char, s: string)
    requires IsSpace(c)
    ensures Split([c] + s) == Split(s)
  {
    assert ([c] + s)[1..] == s;
  }

  /** A word followed by whitespace (or nothing) is split off as the first word. */
  lemma SplitWordThen(w: string, rest: string)
    requires IsWord(w)
    requires rest == [] || IsSpace(rest[0])
    ensures Split(w + rest) == [w] + Split(rest)
  {
    var s := w + rest;
    assert s[0] == w[0];
    assert DropSpaces(s) == s;
    TakeWordOfWord(w, rest);
    assert s[|w|..] == rest;
  }

  /** Splitting words joined by a single space gives the words back. */
  lemma {:induction false} SplitJoin(words: seq<string>)
    requires forall w :: w in words ==> IsWord(w)
    ensures Split(Join(words, " ")) == words
  {
    if |words| == 1 {
      assert words[0] in words;
      SplitJoinOne(words[0]);
    } else if |words| > 1 {
      assert words[0] in words;
      assert forall w :: w in words[1..] ==> w in words;
      SplitJoin(words[1..]);
      SplitJoinStep(words[0], Join(words[1..], " "));
    }
  }

  lemma SplitJoinOne(w: string)
    requires IsWord(w)
    ensures Split(Join([w], " ")) == [w]
  {
    assert Join([w], " ") == w;
    assert w + [] == w;
    assert Split([]) == [];
    SplitWordThen(w, []);
  }

  lemma SplitJoinStep(w: string, j: string)
    requires IsWord(w)
    ensures Split(w + " " + j) == [w] + Split(j)
  {
    assert w + " " + j == w + ([' '] + j);
    SplitWordThen(w, [' '] + j);
    SplitSkipsSpace(' ', j);
  }

  /** Joining space-free words with a space-free separator leaves no whitespace. */
  lemma {:induction false} JoinNoSpace(words: seq<string>, sep: string)
    requires forall i :: 0 <= i < |words| ==> NoSpace(words[i])
    requires NoSpace(sep)
    ensures NoSpace(Join(words, sep))
  {
    if |words| >= 2 {
      JoinNoSpace(words[1..], sep);
      var r := Join(words[1..], sep);
      assert Join(words, sep) == words[0] + sep + r;
      forall i | 0 <= i < |Join(words, sep)|
        ensures !IsSpace(Join(words, sep)[i])
      {
        if i < |words[0]| {
          assert Join(words, sep)[i] == words[0][i];
        } else if i < |words[0]| + |sep| {
          assert Join(words, sep)[i] == sep[i - |words[0]|];
        } else {
          assert Join(words, sep)[i] == r[i - |words[0]| - |sep|];
        }
      }
    }
  }

  // ------------------------------------------------------------------- digits

  predicate IsDigit(c: char) { '0' <= c <= '9' }

  predicate AllDigits(s: string) {
    forall i :: 0 <= i < |s| ==> IsDigit(s[i])
  }

  /** A non-empty digit string with no leading zero, the form `str(n)` produces. */
  predicate Canonical(s: string) {
    |s| > 0 && AllDigits(s) && (s[0] == '0' ==> |s| == 1)
  }

  function DigitValue(c: char): (d: nat)
    requires IsDigit(c)
    ensures d < 10
  {
    c as int - '0' as int
  }

  function DigitChar(d: nat): (c: char)
    requires d < 10
    ensures IsDigit(c) && DigitValue(c) == d
  {
    ('0' as int + d) as char
  }

  /** Python's `int(s)` for a string of ASCII digits. */
  function DigitsToNat(s: string): nat
    requires AllDigits(s)
  {
    if |s| == 0 then 0 else DigitsToNat(s[..|s| - 1]) * 10 + DigitValue(s[|s| - 1])
  }

  /** Python's `str(n)` for a non-negative integer. */
  function NatToString(n: nat): (s: string)
    ensures Canonical(s)
    ensures n < 10 <==> |s| == 1
  {
    if n < 10 then [DigitChar(n)] else NatToString(n / 10) + [DigitChar(n % 10)]
  }

  /** `int(str(n)) == n`. */
  lemma {:induction false} DigitsToNatOfNatToString(n: nat)
    ensures DigitsToNat(NatToString(n)) == n
  {
    if n >= 10 {
      var s := NatToString(n);
      assert s[..|s| - 1] == NatToString(n / 10);
      DigitsToNatOfNatToString(n / 10);
    }
  }

  lemma {:induction false} DigitsToNatPositive(s: string)
    requires |s| > 0 && AllDigits(s) && s[0] != '0'
    ensures DigitsToNat(s) > 0
  {
    if |s| > 1 {
      DigitsToNatPositive(s[..|s| - 1]);
    }
  }

  /** `str(int(s)) == s` for a canonical digit string. */
  lemma {:induction false} NatToStringOfDigitsToNat(s: string)
    requires Canonical(s)
    ensures NatToString(DigitsToNat(s)) == s
  {
    if |s| > 1 {
      var p := s[..|s| - 1];
      DigitsToNatPositive(p);
      NatToStringOfDigitsToNat(p);
      var n := DigitsToNat(s);
      assert n / 10 == DigitsToNat(p) && n % 10 == DigitValue(s[|s| - 1]);
      assert DigitChar(DigitValue(s[|s| - 1])) == s[|s| - 1];
      assert s == p + [s[|s| - 1]];
    } else {
      assert [DigitChar(DigitValue(s[0]))] == s;
    }
  }

  lemma NatToStringInjective(m: nat, n: nat)
    ensures NatToString(m) == NatToString(n) <==> m == n
  {
    if NatToString(m) == NatToString(n) {
      DigitsToNatOfNatToString(m);
      DigitsToNatOfNatToString(n);
    }
  }

  // -------------------------------------------------------------------- paths

  /** Python's `s.replace('\\', '/')`. */
  function ReplaceBackslashes(s: string): (r: string)
    ensures |r| == |s| && '\\' !in r
    ensures forall i :: 0 <= i < |s| ==> r[i] == if s[i] == '\\' then '/' else s[i]
  {
    if |s| == 0 then ""
    else [if s[0] == '\\' then '/' else s[0]] + ReplaceBackslashes(s[1..])
  }

  lemma {:induction false} ReplaceBackslashesAppend(a: string, b: string)
    ensures ReplaceBackslashes(a + b) == ReplaceBackslashes(a) + ReplaceBackslashes(b)
  {
    var whole, parts := ReplaceBackslashes(a + b), ReplaceBackslashes(a) + ReplaceBackslashes(b);
    forall i | 0 <= i < |a + b| ensures whole[i] == parts[i] {
      if i < |a| {
        assert (a + b)[i] == a[i];
      } else {
        assert (a + b)[i] == b[i - |a|];
      }
    }
  }

  /** Strings without a backslash are left alone. */
  lemma ReplaceBackslashesIdentity(s: string)
    requires '\\' !in s
    ensures ReplaceBackslashes(s) == s
  {
  }

  /**
   * `posixpath.join(a, b)`: a component that starts with '/' replaces the path
   * so far; otherwise a '/' is inserted unless the path is empty or already
   * ends with one.
   */
  function PosixJoin(a: string, b: string): string {
    if |b| > 0 && b[0] == '/' then b
    else if |a| == 0 || a[|a| - 1] == '/' then a + b
    else a + "/" + b
  }
}
