/** Strings as the Python code sees them: the ASCII character classes of
    its regular expressions, ASCII case folding, decimal `str(n)`, Python's
    code-point string comparison, and `','.join` with its inverse. */
module Text {

  predicate IsDigit(c: char) { '0' <= c <= '9' }

  /** `\w` restricted to ASCII. */
  predicate IsWordChar(c: char) {
    IsDigit(c) || ('a' <= c <= 'z') || ('A' <= c <= 'Z') || c == '_'
  }

  /** `\s` restricted to ASCII. */
  predicate IsSpace(c: char) {
    c == ' ' || c == '\t' || c == '\n' || c == '\r' || c == '\U{000B}' || c == '\U{000C}'
  }

  predicate AllDigits(s: string) { forall i :: 0 <= i < |s| ==> IsDigit(s[i]) }

  /** A non-empty run of digits: what `\d+` consumes when it must reach the end. */
  predicate IsDigitRun(s: string) { |s| > 0 && AllDigits(s) }

  /** Python's `$` matches at the very end and also just before a final
      newline; `DollarEnd(s, k)` says that a match ending at k satisfies it. */
  predicate DollarEnd(s: string, k: nat) {
    k == |s| || (k + 1 == |s| && s[k] == '\n')
  }

  /** How many leading characters of s satisfy cls: what a greedy `[cls]+` consumes. */
  function RunLength(s: string, cls: char -> bool): (k: nat)
    ensures k <= |s|
    ensures forall i :: 0 <= i < k ==> cls(s[i])
    ensures k < |s| ==> !cls(s[k])
    decreases |s|
  {
    if |s| == 0 || !cls(s[0]) then 0 else 1 + RunLength(s[1..], cls)
  }

  /** Python's `re.match('^[cls]+$', s)` evaluated the way the matcher does
      it: run greedily over the class, then test `$`. */
  predicate MatchesRunToEnd(s: string, cls: char -> bool) {
    RunLength(s, cls) > 0 && DollarEnd(s, RunLength(s, cls))
  }

  /** The same pattern read declaratively: some non-empty prefix lies in the
      class and `$` holds right after it. */
  ghost predicate SomeRunToEnd(s: string, cls: char -> bool) {
    exists j: nat | 0 < j <= |s| :: (forall i :: 0 <= i < j ==> cls(s[i])) && DollarEnd(s, j)
  }

  /** Backtracking never finds a match that the greedy run missed. */
  lemma GreedyRunDecides(s: string, cls: char -> bool)
    ensures MatchesRunToEnd(s, cls) <==> SomeRunToEnd(s, cls)
  {
    var k := RunLength(s, cls);
    if SomeRunToEnd(s, cls) {
      var j: nat :| 0 < j <= |s| && (forall i :: 0 <= i < j ==> cls(s[i])) && DollarEnd(s, j);
      assert j <= k;
    }
    if MatchesRunToEnd(s, cls) {
      assert (forall i :: 0 <= i < k ==> cls(s[i])) && DollarEnd(s, k);
    }
  }

  function LowerChar(c: char): char {
    if 'A' <= c <= 'Z' then (c as int + 32) as char else c
  }

  /** ASCII `lower()`, which ILIKE applies to both sides. */
  function Lower(s: string): (r: string)
    ensures |r| == |s|
    ensures forall i :: 0 <= i < |s| ==> r[i] == LowerChar(s[i])
  {
    seq(|s|, i requires 0 <= i < |s| => LowerChar(s[i]))
  }

  predicate IsUpper(c: char) { 'A' <= c <= 'Z' }
  predicate IsLower(c: char) { 'a' <= c <= 'z' }

  /** Two characters that differ at most in case: equal, or the upper- and
      lower-case forms of one ASCII letter, which lie 32 code points apart. */
  predicate SameIgnoringCase(c: char, d: char) {
    c == d ||
    (IsUpper(c) && IsLower(d) && d as int - c as int == 32) ||
    (IsLower(c) && IsUpper(d) && c as int - d as int == 32)
  }

  predicate EqualIgnoringCase(s: string, t: string) {
    |s| == |t| && forall i :: 0 <= i < |s| ==> SameIgnoringCase(s[i], t[i])
  }

  lemma LowerCharEqual(c: char, d: char)
    ensures LowerChar(c) == LowerChar(d) <==> SameIgnoringCase(c, d)
  {
    if IsUpper(c) && !IsUpper(d) && LowerChar(c) == LowerChar(d) {
      assert d as int == c as int + 32;
    }
    if IsUpper(d) && !IsUpper(c) && LowerChar(c) == LowerChar(d) {
      assert c as int == d as int + 32;
    }
  }

  /** Folding identifies exactly the strings that differ only in case. */
  lemma LowerEqual(s: string, t: string)
    ensures Lower(s) == Lower(t) <==> EqualIgnoringCase(s, t)
  {
    if |s| == |t| {
      forall i | 0 <= i < |s|
        ensures LowerChar(s[i]) == LowerChar(t[i]) <==> SameIgnoringCase(s[i], t[i])
      {
        LowerCharEqual(s[i], t[i]);
      }
      if EqualIgnoringCase(s, t) {
        assert forall i :: 0 <= i < |s| ==> Lower(s)[i] == Lower(t)[i];
      }
      if Lower(s) == Lower(t) {
        assert forall i :: 0 <= i < |s| ==> Lower(s)[i] == Lower(t)[i];
      }
    }
  }

  predicate StartsWith(s: string, prefix: string) {
    |prefix| <= |s| && s[..|prefix|] == prefix
  }

  predicate OccursAt(s: string, needle: string, i: nat) {
    i + |needle| <= |s| && s[i..i + |needle|] == needle
  }

  predicate Contains(s: string, needle: string) {
    exists i: nat | i <= |s| :: OccursAt(s, needle, i)
  }

  function DigitChar(d: nat): (c: char)
    requires d < 10
    ensures IsDigit(c)
  {
    ('0' as int + d) as char
  }

  function DigitValue(c: char): (d: nat)
    requires IsDigit(c)
    ensures d < 10 && DigitChar(d) == c
  {
    c as int - '0' as int
  }

  /** Python's `str(n)` for a non-negative integer. */
  function NatToString(n: nat): (r: string)
    decreases n
  {
    if n < 10 then [DigitChar(n)] else NatToString(n / 10) + [DigitChar(n % 10)]
  }

  /** Python's `int(s)` for a run of digits. */
  function DigitsValue(s: string): (n: nat)
    requires AllDigits(s)
    decreases |s|
  {
    if |s| == 0 then 0 else DigitsValue(s[..|s| - 1]) * 10 + DigitValue(s[|s| - 1])
  }

  lemma {:induction false} NatToStringIsDigitRun(n: nat)
    ensures IsDigitRun(NatToString(n))
    decreases n
  {
    if n >= 10 {
      NatToStringIsDigitRun(n / 10);
    }
  }

  /** `int(str(n)) == n`. */
  lemma {:induction false} NatToStringRoundTrip(n: nat)
    ensures AllDigits(NatToString(n)) && DigitsValue(NatToString(n)) == n
    decreases n
  {
    NatToStringIsDigitRun(n);
    var s := NatToString(n);
    if n >= 10 {
      NatToStringRoundTrip(n / 10);
      assert s[..|s| - 1] == NatToString(n / 10);
    }
  }

  /** Python's `<` on strings: lexicographic by code point. */
  predicate LexLess(a: string, b: string)
    decreases |a|
  {
    if |a| == 0 then |b| > 0
    else if |b| == 0 then false
    else if a[0] != b[0] then a[0] < b[0]
    else LexLess(a[1..], b[1..])
  }

  lemma {:induction false} LexLessIrreflexive(a: string)
    ensures !LexLess(a, a)
    decreases |a|
  {
    if |a| > 0 { LexLessIrreflexive(a[1..]); }
  }

  lemma {:induction false} LexLessTransitive(a: string, b: string, c: string)
    ensures LexLess(a, b) && LexLess(b, c) ==> LexLess(a, c)
    decreases |a|
  {
    if |a| > 0 && |b| > 0 && |c| > 0 && a[0] == b[0] && b[0] == c[0] {
      LexLessTransitive(a[1..], b[1..], c[1..]);
    }
  }

  lemma {:induction false} LexLessTotal(a: string, b: string)
    ensures a == b || LexLess(a, b) || LexLess(b, a)
    decreases |a|
  {
    if |a| > 0 && |b| > 0 && a[0] == b[0] {
      LexLessTotal(a[1..], b[1..]);
      if a[1..] == b[1..] {
        assert a == [a[0]] + a[1..] && b == [b[0]] + b[1..];
      }
    }
  }

  /** Python's `sep.join(fields)`. */
  function Join(fields: seq<string>, sep: char): (r: string)
    decreases |fields|
  {
    if |fields| == 0 then ""
    else if |fields| == 1 then fields[0]
    else fields[0] + [sep] + Join(fields[1..], sep)
  }

  /** Python's `s.split(sep)` for a one-character separator. */
  function Split(s: string, sep: char): (r: seq<string>)
    ensures |r| > 0
    decreases |s|
  {
    if |s| == 0 then [""]
    else
      var rest := Split(s[1..], sep);
      if s[0] == sep then [""] + rest else [[s[0]] + rest[0]] + rest[1..]
  }

  predicate Free(s: string, sep: char) { forall i :: 0 <= i < |s| ==> s[i] != sep }

  lemma {:induction false} SplitFree(a: string, sep: char)
    requires Free(a, sep)
    ensures Split(a, sep) == [a]
    decreases |a|
  {
    if |a| > 0 {
      SplitFree(a[1..], sep);
      assert [a[0]] + a[1..] == a;
    }
  }

  lemma {:induction false} SplitAfterField(a: string, sep: char, t: string)
    requires Free(a, sep)
    ensures Split(a + [sep] + t, sep) == [a] + Split(t, sep)
    decreases |a|
  {
    var s := a + [sep] + t;
    if |a| == 0 {
      assert s[1..] == t;
    } else {
      assert s[1..] == a[1..] + [sep] + t;
      SplitAfterField(a[1..], sep, t);
      assert [a[0]] + a[1..] == a;
    }
  }

  /** Splitting a joined line gives back its fields when no field holds the separator. */
  lemma {:induction false} SplitJoin(fields: seq<string>, sep: char)
    requires |fields| > 0
    requires forall k :: 0 <= k < |fields| ==> Free(fields[k], sep)
    ensures Split(Join(fields, sep), sep) == fields
    decreases |fields|
  {
    if |fields| == 1 {
      SplitFree(fields[0], sep);
    } else {
      SplitJoin(fields[1..], sep);
      SplitAfterField(fields[0], sep, Join(fields[1..], sep));
      assert [fields[0]] + fields[1..] == fields;
    }
  }

  /** Concatenation of lines, each followed by `sep` (the `out += … + "\n"` idiom). */
  function Terminated(lines: seq<string>, sep: char): (r: string)
    decreases |lines|
  {
    if |lines| == 0 then "" else lines[0] + [sep] + Terminated(lines[1..], sep)
  }

  lemma {:induction false} TerminatedSnoc(lines: seq<string>, line: string, sep: char)
    ensures Terminated(lines + [line], sep) == Terminated(lines, sep) + line + [sep]
    decreases |lines|
  {
    if |lines| > 0 {
      assert (lines + [line])[1..] == lines[1..] + [line];
      TerminatedSnoc(lines[1..], line, sep);
    }
  }

  /** Terminated output is the join of its lines with one empty field after the last newline. */
  lemma {:induction false} TerminatedIsJoin(lines: seq<string>, sep: char)
    ensures Terminated(lines, sep) == Join(lines + [""], sep)
    decreases |lines|
  {
    if |lines| > 0 {
      TerminatedIsJoin(lines[1..], sep);
      assert (lines + [""])[1..] == lines[1..] + [""];
    }
  }

  /** Splitting terminated output at the terminator recovers every line. */
  lemma SplitTerminated(lines: seq<string>, sep: char)
    requires forall k :: 0 <= k < |lines| ==> Free(lines[k], sep)
    ensures Split(Terminated(lines, sep), sep) == lines + [""]
  {
    TerminatedIsJoin(lines, sep);
    SplitJoin(lines + [""], sep);
  }
}
