/**
 The string operations of Python's `str` that the backend relies on, over
 Dafny strings (sequences of Unicode scalar values), with the facts about them
 that the rest of the model needs.
 */
module Strings {

  /* ---------------------------------------------------------------------- */
  /* UTF-8 length                                                           */
  /* ---------------------------------------------------------------------- */

  /** Number of bytes UTF-8 uses for one Unicode scalar value. */
  function Utf8Width(c: char): nat
  {
    if c as int < 0x80 then 1
    else if c as int < 0x800 then 2
    else if c as int < 0x1_0000 then 3
    else 4
  }

  /** `len(s.encode("utf-8"))`. */
  function Utf8Length(s: string): (n: nat)
    ensures |s| <= n <= 4 * |s|
  {
    if s == [] then 0 else Utf8Width(s[0]) + Utf8Length(s[1..])
  }

  lemma {:induction false} Utf8LengthConcat(a: string, b: string)
    ensures Utf8Length(a + b) == Utf8Length(a) + Utf8Length(b)
  {
    if a == [] {
      assert a + b == b;
    } else {
      assert (a + b)[1..] == a[1..] + b;
      Utf8LengthConcat(a[1..], b);
    }
  }

  /** A prefix never takes more bytes than the whole string. */
  lemma Utf8LengthPrefix(s: string, k: nat)
    requires k <= |s|
    ensures Utf8Length(s[..k]) <= Utf8Length(s)
  {
    assert s == s[..k] + s[k..];
    Utf8LengthConcat(s[..k], s[k..]);
  }

  /** A string of `n` copies of `c` takes `n` times the width of `c`. */
  lemma {:induction false} Utf8LengthRun(c: char, n: nat)
    ensures Utf8Length(seq(n, _ => c)) == n * Utf8Width(c)
  {
    if n > 0 {
      var s := seq(n, _ => c);
      assert s[1..] == seq(n - 1, _ => c);
      Utf8LengthRun(c, n - 1);
    }
  }

  predicate IsAscii(c: char) {
    c as int < 0x80
  }

  /** Every character of `s` satisfies `p`. */
  predicate AllChars(s: string, p: char -> bool) {
    forall i :: 0 <= i < |s| ==> p(s[i])
  }

  predicate NotNewline(c: char) {
    c != '\n'
  }

  /** For one-byte characters the byte length is the character count. */
  lemma {:induction false} Utf8LengthAscii(s: string)
    requires AllChars(s, IsAscii)
    ensures Utf8Length(s) == |s|
  {
    if s != [] {
      Utf8LengthAscii(s[1..]);
    }
  }

  /* ---------------------------------------------------------------------- */
  /* Whitespace and str.strip()                                             */
  /* ---------------------------------------------------------------------- */

  /** Python's `str.isspace()` for one character. */
  predicate IsSpace(c: char) {
    var n := c as int;
    (0x09 <= n <= 0x0D) || (0x1C <= n <= 0x20) || n == 0x85 || n == 0xA0
    || n == 0x1680 || (0x2000 <= n <= 0x200A) || n == 0x2028 || n == 0x2029
    || n == 0x202F || n == 0x205F || n == 0x3000
  }

  /** `s.lstrip()`: drops leading whitespace and nothing else. */
  function TrimStart(s: string): (r: string)
    ensures |r| <= |s| && r == s[|s| - |r|..]
    ensures forall i :: 0 <= i < |s| - |r| ==> IsSpace(s[i])
    ensures r == [] || !IsSpace(r[0])
  {
    if s != [] && IsSpace(s[0]) then TrimStart(s[1..]) else s
  }

  /** `s.rstrip()`: drops trailing whitespace and nothing else. */
  function TrimEnd(s: string): (r: string)
    ensures |r| <= |s| && r == s[..|r|]
    ensures forall i :: |r| <= i < |s| ==> IsSpace(s[i])
    ensures r == [] || !IsSpace(r[|r| - 1])
  {
    if s != [] && IsSpace(s[|s| - 1]) then TrimEnd(s[..|s| - 1]) else s
  }

  /** `s.strip()`. */
  function Strip(s: string): string {
    TrimEnd(TrimStart(s))
  }

  /** `s.strip()` is empty exactly when `s` is all whitespace. */
  lemma StripEmptyIffBlank(s: string)
    ensures Strip(s) == [] <==> AllChars(s, IsSpace)
  {
    var t := TrimStart(s);
    if Strip(s) == [] {
      if t != [] {
        assert false;
      }
    } else {
      var r := Strip(s);
      assert r == t[..|r|];
      assert t[0] == s[|s| - |t|];
      assert !IsSpace(s[|s| - |t|]);
    }
  }

  /** A stripped string is its own strip. */
  lemma StripIdempotent(s: string)
    ensures Strip(Strip(s)) == Strip(s)
  {
    var r := Strip(s);
    if r != [] {
      var t := TrimStart(s);
      assert r == t[..|r|];
      assert r[0] == t[0];
    }
  }

  /** The lines that survive `[line.strip() for line in lines if line.strip()]`. */
  function NonBlankStripped(lines: seq<string>): (r: seq<string>)
    ensures |r| <= |lines|
  {
    if lines == [] then []
    else
      var s := Strip(lines[0]);
      if s != [] then [s] + NonBlankStripped(lines[1..]) else NonBlankStripped(lines[1..])
  }

  /** A line `NonBlankStripped` keeps: non-empty and already stripped. */
  predicate StrippedLine(line: string) {
    line != [] && Strip(line) == line
  }

  /** Every surviving line is non-empty and already stripped. */
  lemma {:induction false} NonBlankStrippedAreStripped(lines: seq<string>)
    ensures forall i :: 0 <= i < |NonBlankStripped(lines)| ==> StrippedLine(NonBlankStripped(lines)[i])
  {
    if lines != [] {
      NonBlankStrippedAreStripped(lines[1..]);
      var s := Strip(lines[0]);
      if s != [] {
        StripIdempotent(lines[0]);
        ConsStrippedLines(s, NonBlankStripped(lines[1..]));
      }
    }
  }

  /** Putting a stripped line in front of stripped lines. */
  lemma ConsStrippedLines(s: string, rest: seq<string>)
    requires StrippedLine(s)
    requires forall i :: 0 <= i < |rest| ==> StrippedLine(rest[i])
    ensures forall i :: 0 <= i < |[s] + rest| ==> StrippedLine(([s] + rest)[i])
  {
    assert forall i :: 1 <= i < |rest| + 1 ==> ([s] + rest)[i] == rest[i - 1];
  }

  /** Stripping keeps a character class the string has. */
  lemma StripKeepsChars(s: string, p: char -> bool)
    requires AllChars(s, p)
    ensures AllChars(Strip(s), p)
  {
    var t := TrimStart(s);
    SliceKeepsChars(s, |s| - |t|, |s|, p);
    var r := TrimEnd(t);
    SliceKeepsChars(t, 0, |r|, p);
  }

  /** A slice keeps a character class the string has. */
  lemma SliceKeepsChars(s: string, i: nat, j: nat, p: char -> bool)
    requires AllChars(s, p) && i <= j <= |s|
    ensures AllChars(s[i..j], p)
  {
    assert forall k :: 0 <= k < j - i ==> s[i..j][k] == s[i + k];
  }

  /** The surviving lines keep a character class every line has. */
  lemma {:induction false} NonBlankStrippedKeepsChars(lines: seq<string>, p: char -> bool)
    requires forall i :: 0 <= i < |lines| ==> AllChars(lines[i], p)
    ensures forall i :: 0 <= i < |NonBlankStripped(lines)| ==> AllChars(NonBlankStripped(lines)[i], p)
  {
    if lines != [] {
      assert forall i :: 0 <= i < |lines[1..]| ==> lines[1..][i] == lines[i + 1];
      NonBlankStrippedKeepsChars(lines[1..], p);
      var s := Strip(lines[0]);
      if s != [] {
        StripKeepsChars(lines[0], p);
        ConsAllChars(s, NonBlankStripped(lines[1..]), p);
      }
    }
  }

  /** Putting a line with a character class in front of lines with it. */
  lemma ConsAllChars(s: string, rest: seq<string>, p: char -> bool)
    requires AllChars(s, p)
    requires forall i :: 0 <= i < |rest| ==> AllChars(rest[i], p)
    ensures forall i :: 0 <= i < |[s] + rest| ==> AllChars(([s] + rest)[i], p)
  {
    assert forall i :: 1 <= i < |rest| + 1 ==> ([s] + rest)[i] == rest[i - 1];
  }

  /* ---------------------------------------------------------------------- */
  /* Case and character replacement                                         */
  /* ---------------------------------------------------------------------- */

  function LowerChar(c: char): char {
    if 'A' <= c <= 'Z' then (c as int + 32) as char else c
  }

  /** `s.lower()` on the ASCII letters. */
  function Lower(s: string): (r: string)
    ensures |r| == |s|
  {
    seq(|s|, i requires 0 <= i < |s| => LowerChar(s[i]))
  }

  /** Lower-casing works character by character, so it distributes over concatenation. */
  lemma LowerConcat(a: string, b: string)
    ensures Lower(a + b) == Lower(a) + Lower(b)
  {
    assert forall i :: 0 <= i < |a + b| ==> Lower(a + b)[i] == (Lower(a) + Lower(b))[i];
  }

  /** Lower-casing never introduces or removes a character that is not an upper-case letter. */
  lemma LowerKeeps(s: string, c: char)
    requires !('A' <= c <= 'Z') && !('a' <= c <= 'z')
    ensures c in Lower(s) <==> c in s
  {
    if c in s {
      var i :| 0 <= i < |s| && s[i] == c;
      assert Lower(s)[i] == c;
    }
    if c in Lower(s) {
      var i :| 0 <= i < |s| && Lower(s)[i] == c;
      assert s[i] == c;
    }
  }

  /** `s.replace(a, b)` for single characters. */
  function ReplaceChar(s: string, a: char, b: char): (r: string)
    ensures |r| == |s|
  {
    seq(|s|, i requires 0 <= i < |s| => if s[i] == a then b else s[i])
  }

  /** `s.replace(pattern, replacement)`: every non-overlapping occurrence, left to right. */
  function ReplaceAll(s: string, pattern: string, replacement: string): string
    requires pattern != []
    decreases |s|
  {
    if |s| < |pattern| then s
    else if s[..|pattern|] == pattern then replacement + ReplaceAll(s[|pattern|..], pattern, replacement)
    else [s[0]] + ReplaceAll(s[1..], pattern, replacement)
  }

  /** `needle` occurs in `haystack` starting at index `i`. */
  predicate OccursAt(haystack: string, needle: string, i: int) {
    0 <= i <= |haystack| - |needle| && haystack[i..i + |needle|] == needle
  }

  /** `needle in haystack`. */
  predicate Contains(haystack: string, needle: string) {
    exists i | 0 <= i <= |haystack| - |needle| :: OccursAt(haystack, needle, i)
  }

  /** `s[:n]` for a non-negative `n`, on any sequence. */
  function Take<T>(s: seq<T>, n: nat): (r: seq<T>)
    ensures r <= s
    ensures |r| == if n < |s| then n else |s|
  {
    if n < |s| then s[..n] else s
  }

  /* ---------------------------------------------------------------------- */
  /* str.join and str.split                                                 */
  /* ---------------------------------------------------------------------- */

  /** `sep.join(parts)`. */
  function Join(parts: seq<string>, sep: string): string
  {
    if |parts| == 0 then ""
    else if |parts| == 1 then parts[0]
    else parts[0] + sep + Join(parts[1..], sep)
  }

  lemma JoinCons(x: string, ys: seq<string>, sep: string)
    requires ys != []
    ensures Join([x] + ys, sep) == x + sep + Join(ys, sep)
  {
    assert ([x] + ys)[1..] == ys;
  }

  lemma {:induction false} JoinSnoc(xs: seq<string>, y: string, sep: string)
    requires xs != []
    ensures Join(xs + [y], sep) == Join(xs, sep) + sep + y
  {
    if |xs| == 1 {
      assert xs + [y] == [xs[0]] + [y];
      JoinCons(xs[0], [y], sep);
    } else {
      assert xs + [y] == [xs[0]] + (xs[1..] + [y]);
      JoinCons(xs[0], xs[1..] + [y], sep);
      JoinSnoc(xs[1..], y, sep);
      JoinCons(xs[0], xs[1..], sep);
      assert xs == [xs[0]] + xs[1..];
    }
  }

  /** Sum of the lengths of `parts`. */
  function TotalLength(parts: seq<string>): nat {
    if parts == [] then 0 else |parts[0]| + TotalLength(parts[1..])
  }

  /** Joining adds exactly one separator between consecutive parts. */
  lemma {:induction false} JoinLength(parts: seq<string>, sep: string)
    requires parts != []
    ensures |Join(parts, sep)| == TotalLength(parts) + |sep| * (|parts| - 1)
  {
    if |parts| > 1 {
      JoinLength(parts[1..], sep);
    }
  }

  /** `s.split(d)` for a one-character separator: always at least one part. */
  function Split(s: string, d: char): (parts: seq<string>)
    ensures |parts| >= 1
    ensures forall i :: 0 <= i < |parts| ==> d !in parts[i]
    decreases |s|
  {
    if s == [] then [""]
    else
      var rest := Split(s[1..], d);
      if s[0] == d then [""] + rest else [[s[0]] + rest[0]] + rest[1..]
  }

  /** Joining the parts of a split with the separator gives the string back. */
  lemma {:induction false} JoinSplit(s: string, d: char)
    ensures Join(Split(s, d), [d]) == s
  {
    if s != [] {
      JoinSplit(s[1..], d);
      JoinSplitStep(s[0], s[1..], d);
      assert s == [s[0]] + s[1..];
    }
  }

  /** One step of `JoinSplit`: prepending a character to a string whose split joins back. */
  lemma JoinSplitStep(c: char, t: string, d: char)
    requires Join(Split(t, d), [d]) == t
    ensures Join(Split([c] + t, d), [d]) == [c] + t
  {
    if c == d {
      JoinSplitSeparator(t, d);
    } else {
      JoinSplitChar(c, t, d);
    }
  }

  /** `JoinSplitStep` when the prepended character is the separator. */
  lemma JoinSplitSeparator(t: string, d: char)
    requires Join(Split(t, d), [d]) == t
    ensures Join(Split([d] + t, d), [d]) == [d] + t
  {
    SplitSeparatorFirst(t, d);
    JoinCons("", Split(t, d), [d]);
    assert "" + [d] + t == [d] + t;
  }

  /** `JoinSplitStep` when the prepended character is not the separator. */
  lemma JoinSplitChar(c: char, t: string, d: char)
    requires c != d
    requires Join(Split(t, d), [d]) == t
    ensures Join(Split([c] + t, d), [d]) == [c] + t
  {
    SplitCharFirst(c, t, d);
    JoinExtendFirst([c], Split(t, d), [d]);
  }

  /** Extending the first part extends the join by the same prefix. */
  lemma JoinExtendFirst(p: string, parts: seq<string>, sep: string)
    requires parts != []
    ensures Join([p + parts[0]] + parts[1..], sep) == p + Join(parts, sep)
  {
    if |parts| == 1 {
      assert [p + parts[0]] + parts[1..] == [p + parts[0]];
    } else {
      JoinCons(p + parts[0], parts[1..], sep);
      JoinCons(parts[0], parts[1..], sep);
      assert parts == [parts[0]] + parts[1..];
      assert p + parts[0] + sep + Join(parts[1..], sep) == p + (parts[0] + sep + Join(parts[1..], sep));
    }
  }

  /** A leading separator splits off an empty part. */
  lemma SplitSeparatorFirst(t: string, d: char)
    ensures Split([d] + t, d) == [""] + Split(t, d)
  {
    assert ([d] + t)[1..] == t;
  }

  /** A leading non-separator joins the first part. */
  lemma SplitCharFirst(c: char, t: string, d: char)
    requires c != d
    ensures var rest := Split(t, d); Split([c] + t, d) == [[c] + rest[0]] + rest[1..]
  {
    assert ([c] + t)[1..] == t;
  }

  /** A string without the separator splits into itself. */
  lemma {:induction false} SplitNoSeparator(s: string, d: char)
    requires d !in s
    ensures Split(s, d) == [s]
  {
    if s != [] {
      assert s == [s[0]] + s[1..];
      SplitNoSeparator(s[1..], d);
    }
  }

  /** Splitting around one separator splits each side. */
  lemma {:induction false} SplitAround(a: string, d: char, b: string)
    ensures Split(a + [d] + b, d) == Split(a, d) + Split(b, d)
  {
    if a == [] {
      assert a + [d] + b == [d] + b;
      SplitSeparatorFirst(b, d);
    } else {
      SplitAround(a[1..], d, b);
      SplitAroundStep(a[0], a[1..], d, b);
      assert a == [a[0]] + a[1..];
    }
  }

  /** One step of `SplitAround`: prepending a character to the left side. */
  lemma SplitAroundStep(c: char, a: string, d: char, b: string)
    requires Split(a + [d] + b, d) == Split(a, d) + Split(b, d)
    ensures Split([c] + a + [d] + b, d) == Split([c] + a, d) + Split(b, d)
  {
    assert [c] + a + [d] + b == [c] + (a + [d] + b);
    if c == d {
      SplitAroundSeparator(a, d, b);
    } else {
      SplitAroundChar(c, a, d, b);
    }
  }

  /** `SplitAroundStep` when the prepended character is the separator. */
  lemma SplitAroundSeparator(a: string, d: char, b: string)
    requires Split(a + [d] + b, d) == Split(a, d) + Split(b, d)
    ensures Split([d] + (a + [d] + b), d) == Split([d] + a, d) + Split(b, d)
  {
    SplitSeparatorFirst(a + [d] + b, d);
    SplitSeparatorFirst(a, d);
  }

  /** `SplitAroundStep` when the prepended character is not the separator. */
  lemma SplitAroundChar(c: char, a: string, d: char, b: string)
    requires c != d
    requires Split(a + [d] + b, d) == Split(a, d) + Split(b, d)
    ensures Split([c] + (a + [d] + b), d) == Split([c] + a, d) + Split(b, d)
  {
    SplitCharFirst(c, a + [d] + b, d);
    SplitCharFirst(c, a, d);
    ConsFirstPart([c], Split(a, d), Split(b, d));
  }

  /** Extending the first part of `x + y` extends the first part of `x`. */
  lemma ConsFirstPart(p: string, x: seq<string>, y: seq<string>)
    requires x != []
    ensures [p + (x + y)[0]] + (x + y)[1..] == ([p + x[0]] + x[1..]) + y
  {
    assert (x + y)[0] == x[0];
    assert (x + y)[1..] == x[1..] + y;
  }

  /** Splitting a join of separator-free parts gives the parts back. */
  lemma {:induction false} SplitJoin(parts: seq<string>, d: char)
    requires parts != []
    requires forall i :: 0 <= i < |parts| ==> d !in parts[i]
    ensures Split(Join(parts, [d]), d) == parts
  {
    if |parts| == 1 {
      SplitNoSeparator(parts[0], d);
    } else {
      SplitJoin(parts[1..], d);
      SplitNoSeparator(parts[0], d);
      assert Join(parts, [d]) == parts[0] + [d] + Join(parts[1..], [d]);
      SplitAround(parts[0], d, Join(parts[1..], [d]));
      assert parts == [parts[0]] + parts[1..];
    }
  }

  /** Every part of a split keeps a character class the string has. */
  lemma {:induction false} SplitKeepsChars(s: string, d: char, p: char -> bool)
    requires AllChars(s, p)
    ensures forall i :: 0 <= i < |Split(s, d)| ==> AllChars(Split(s, d)[i], p)
  {
    if s != [] {
      SplitKeepsChars(s[1..], d, p);
      var rest := Split(s[1..], d);
      if s[0] != d {
        assert AllChars([s[0]] + rest[0], p);
      }
    }
  }

  /** `s.split(d)[-1]`: the text after the last separator. */
  function LastSegment(s: string, d: char): string {
    var parts := Split(s, d);
    parts[|parts| - 1]
  }

  /** The last segment is a separator-free suffix, preceded by a separator when `s` has one. */
  lemma LastSegmentShape(s: string, d: char)
    ensures var r := LastSegment(s, d);
      && d !in r
      && |r| <= |s| && s[|s| - |r|..] == r
      && (d in s ==> |r| < |s| && s[|s| - |r| - 1] == d)
      && (d !in s ==> r == s)
  {
    var parts := Split(s, d);
    var r := parts[|parts| - 1];
    JoinSplit(s, d);
    if |parts| == 1 {
      assert s == r;
    } else {
      var init := parts[..|parts| - 1];
      assert parts == init + [r];
      JoinSnoc(init, r, [d]);
      assert s == Join(init, [d]) + [d] + r;
      assert s[|s| - |r| - 1] == d;
    }
    if d !in s {
      SplitNoSeparator(s, d);
    }
  }

  /** Appending `d` and a separator-free tail makes that tail the last segment. */
  lemma LastSegmentAppend(a: string, d: char, tail: string)
    requires d !in tail
    ensures LastSegment(a + [d] + tail, d) == tail
  {
    SplitAround(a, d, tail);
    SplitNoSeparator(tail, d);
  }

  /* ---------------------------------------------------------------------- */
  /* Decimal integers                                                       */
  /* ---------------------------------------------------------------------- */

  predicate IsDigit(c: char) {
    '0' <= c <= '9'
  }

  function DigitChar(d: nat): (c: char)
    requires d < 10
    ensures IsDigit(c) && c as int - '0' as int == d
  {
    ('0' as int + d) as char
  }

  /** `str(n)` for a non-negative integer. */
  function NatToString(n: nat): (s: string)
    ensures |s| >= 1 && AllChars(s, IsDigit)
  {
    if n < 10 then [DigitChar(n)] else NatToString(n / 10) + [DigitChar(n % 10)]
  }

  /** The number a string of decimal digits denotes. */
  function DigitsValue(s: string): nat
    requires AllChars(s, IsDigit)
  {
    if s == [] then 0
    else DigitsValue(s[..|s| - 1]) * 10 + (s[|s| - 1] as int - '0' as int)
  }

  lemma {:induction false} DigitsValueOfNatToString(n: nat)
    ensures DigitsValue(NatToString(n)) == n
  {
    if n >= 10 {
      var s := NatToString(n);
      assert s[..|s| - 1] == NatToString(n / 10);
      DigitsValueOfNatToString(n / 10);
    }
  }

  /** `str(n)` for an integer. */
  function IntToString(n: int): string {
    if n < 0 then "-" + NatToString(-n) else NatToString(n)
  }

  /** Distinct numbers print differently. */
  lemma NatToStringInjective(m: nat, n: nat)
    requires NatToString(m) == NatToString(n)
    ensures m == n
  {
    DigitsValueOfNatToString(m);
    DigitsValueOfNatToString(n);
  }
}
