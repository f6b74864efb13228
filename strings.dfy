/** The JavaScript string operations the game relies on, on `seq<char>`:
    `trim`, `toLowerCase` (as far as the keyword tests need it), `includes`,
    `join("\n")` and `split("\n")`. */
module Strings {

  /** The ECMAScript WhiteSpace and LineTerminator code points (the space separators
      as of Unicode 15): exactly what `String.prototype.trim` strips. */
  predicate IsSpace(c: char) {
    var n := c as int;
    n == 0x09 || n == 0x0A || n == 0x0B || n == 0x0C || n == 0x0D || n == 0x20
    || n == 0xA0 || n == 0x1680 || (0x2000 <= n <= 0x200A) || n == 0x2028 || n == 0x2029
    || n == 0x202F || n == 0x205F || n == 0x3000 || n == 0xFEFF
  }

  /** How many white-space characters `s` starts with. */
  function LeadingSpaces(s: string): (n: nat)
    ensures n <= |s|
    ensures forall k :: 0 <= k < n ==> IsSpace(s[k])
    ensures n < |s| ==> !IsSpace(s[n])
    decreases |s|
  {
    if s != [] && IsSpace(s[0]) then 1 + LeadingSpaces(s[1..]) else 0
  }

  /** Where the text of `s` ends: everything from there on is white space, and the
      character before it is not. */
  function ContentEnd(s: string): (n: nat)
    ensures n <= |s|
    ensures forall k :: n <= k < |s| ==> IsSpace(s[k])
    ensures n > 0 ==> !IsSpace(s[n - 1])
    decreases |s|
  {
    if s != [] && IsSpace(s[|s| - 1]) then ContentEnd(s[..|s| - 1]) else |s|
  }

  /** The part of `s` after its leading white space; a step towards `Trim`, stated
      on its own for the lemmas about trimming. */
  function TrimStart(s: string): string {
    s[LeadingSpaces(s)..]
  }

  /** The part of `s` before its trailing white space; a step towards `Trim`, stated
      on its own for the lemmas about trimming. */
  function TrimEnd(s: string): string {
    s[..ContentEnd(s)]
  }

  /** `s.trim()`: the infix of `s` left after removing white space at both ends. */
  function Trim(s: string): (r: string)
    ensures var i := LeadingSpaces(s);
      i + |r| <= |s| && r == s[i..i + |r|]
      && (forall k :: 0 <= k < i ==> IsSpace(s[k]))
      && (forall k :: i + |r| <= k < |s| ==> IsSpace(s[k]))
    ensures r == [] || (!IsSpace(r[0]) && !IsSpace(r[|r| - 1]))
    ensures (s == [] || (!IsSpace(s[0]) && !IsSpace(s[|s| - 1]))) ==> r == s
  {
    var i := LeadingSpaces(s);
    var t := s[i..];
    var m := ContentEnd(t);
    assert forall k :: i + m <= k < |s| ==> s[k] == t[k - i];
    assert t[..m] == s[i..i + m];
    assert (s == [] || (!IsSpace(s[0]) && !IsSpace(s[|s| - 1]))) ==> i == 0 && t == s && m == |s|;
    t[..m]
  }

  /** Lower-casing of one code point, restricted to the code points whose lower-case
      form is an ASCII letter other than `i`: A to Z and U+212A KELVIN SIGN. */
  function LowerChar(c: char): char {
    if 'A' <= c <= 'Z' then (c as int + 32) as char
    else if c == '\U{212A}' then 'k'
    else c
  }

  /** `s.toLowerCase()`, as seen by a search for a lower-case ASCII keyword. */
  function ToLower(s: string): string {
    seq(|s|, i requires 0 <= i < |s| => LowerChar(s[i]))
  }

  /** `s.includes(k)`: `k` occurs somewhere in `s`. */
  predicate Contains(s: string, k: string)
    decreases |s|
  {
    k <= s || (s != [] && Contains(s[1..], k))
  }

  /** An occurrence at a known position is found by `Contains`. */
  lemma {:induction false} ContainsAt(s: string, k: string, i: nat)
    requires i + |k| <= |s| && s[i..i + |k|] == k
    ensures Contains(s, k)
  {
    if i == 0 {
      assert k <= s;
    } else {
      assert s[1..][i - 1..i - 1 + |k|] == k;
      ContainsAt(s[1..], k, i - 1);
    }
  }

  /** A keyword holding a character the text lacks does not occur in it. */
  lemma {:induction false} MissingCharNotContained(s: string, k: string, c: char)
    requires c in k && c !in s
    ensures !Contains(s, k)
    decreases |s|
  {
    if s != [] {
      assert c !in s[1..];
      MissingCharNotContained(s[1..], k, c);
    }
  }

  /** Lower-casing brings no letter other than `k` into a text that has neither its
      lower- nor its upper-case form. */
  lemma LowerMissing(s: string, c: char, upper: char)
    requires 'a' <= c <= 'z' && c != 'k' && upper as int == c as int - 32
    requires c !in s && upper !in s
    ensures c !in ToLower(s)
  {
    forall i | 0 <= i < |s| ensures ToLower(s)[i] != c {
      assert s[i] != c && s[i] != upper;
    }
  }

  /** `s.toLowerCase().includes(k)`. */
  predicate ContainsFolded(s: string, k: string) {
    Contains(ToLower(s), k)
  }

  /** `lines.join("\n")`. */
  function JoinLines(lines: seq<string>): string {
    if |lines| == 0 then ""
    else if |lines| == 1 then lines[0]
    else lines[0] + "\n" + JoinLines(lines[1..])
  }

  /** `s.split("\n")`: always at least one piece; no piece holds a newline. */
  function SplitLines(s: string): (r: seq<string>)
    ensures |r| >= 1
    ensures forall k :: 0 <= k < |r| ==> '\n' !in r[k]
    decreases |s|
  {
    if s == [] then [""]
    else if s[0] == '\n' then [""] + SplitLines(s[1..])
    else
      var t := SplitLines(s[1..]);
      [[s[0]] + t[0]] + t[1..]
  }

  /** How often `c` occurs in `s`. */
  function CountChar(s: string, c: char): nat {
    if s == [] then 0 else (if s[0] == c then 1 else 0) + CountChar(s[1..], c)
  }

  predicate NoNewlines(lines: seq<string>) {
    forall k :: 0 <= k < |lines| ==> '\n' !in lines[k]
  }

  lemma {:induction false} CountCharConcat(a: string, b: string, c: char)
    ensures CountChar(a + b, c) == CountChar(a, c) + CountChar(b, c)
  {
    if a == [] {
      assert a + b == b;
    } else {
      assert (a + b)[1..] == a[1..] + b;
      CountCharConcat(a[1..], b, c);
    }
  }

  lemma {:induction false} CountCharAbsent(s: string, c: char)
    requires c !in s
    ensures CountChar(s, c) == 0
  {
    if s != [] {
      assert c !in s[1..];
      CountCharAbsent(s[1..], c);
    }
  }

  /** Joining n newline-free lines puts exactly n - 1 newlines in the text. */
  lemma {:induction false} JoinLinesNewlines(lines: seq<string>)
    requires |lines| >= 1 && NoNewlines(lines)
    ensures CountChar(JoinLines(lines), '\n') == |lines| - 1
  {
    CountCharAbsent(lines[0], '\n');
    if |lines| > 1 {
      JoinLinesNewlines(lines[1..]);
      CountCharConcat(lines[0], "\n", '\n');
      CountCharConcat(lines[0] + "\n", JoinLines(lines[1..]), '\n');
    }
  }

  /** The joined text starts with the first line. */
  lemma {:induction false} JoinLinesStartsWithFirst(lines: seq<string>)
    requires |lines| >= 1
    ensures lines[0] <= JoinLines(lines)
  {
    if |lines| > 1 {
      assert JoinLines(lines) == lines[0] + ("\n" + JoinLines(lines[1..]));
    }
  }

  /** The joined text ends with the last line. */
  lemma {:induction false} JoinLinesEndsWithLast(lines: seq<string>)
    requires |lines| >= 1
    ensures var last := lines[|lines| - 1]; var j := JoinLines(lines);
      |last| <= |j| && j[|j| - |last|..] == last
  {
    if |lines| > 1 {
      JoinLinesEndsWithLast(lines[1..]);
      assert lines[1..][|lines[1..]| - 1] == lines[|lines| - 1];
    }
  }

  /** A text without newlines splits into itself. */
  lemma {:induction false} SplitSingle(a: string)
    requires '\n' !in a
    ensures SplitLines(a) == [a]
  {
    if a != [] {
      assert '\n' !in a[1..];
      SplitSingle(a[1..]);
      assert [a[0]] + a[1..] == a;
    }
  }

  /** Splitting a newline-free line followed by a newline peels that line off. */
  lemma {:induction false} SplitAfterLine(a: string, rest: string)
    requires '\n' !in a
    ensures SplitLines(a + "\n" + rest) == [a] + SplitLines(rest)
  {
    var s := a + "\n" + rest;
    if a == [] {
      assert s == "\n" + rest;
      assert s[1..] == rest;
    } else {
      assert s[0] == a[0];
      assert s[1..] == a[1..] + "\n" + rest;
      assert '\n' !in a[1..];
      SplitAfterLine(a[1..], rest);
      assert [a[0]] + a[1..] == a;
    }
  }

  /** `split` undoes `join` on newline-free lines. */
  lemma {:induction false} SplitJoin(lines: seq<string>)
    requires |lines| >= 1 && NoNewlines(lines)
    ensures SplitLines(JoinLines(lines)) == lines
  {
    if |lines| == 1 {
      SplitSingle(lines[0]);
    } else {
      SplitAfterLine(lines[0], JoinLines(lines[1..]));
      SplitJoin(lines[1..]);
      assert [lines[0]] + lines[1..] == lines;
    }
  }

  /** `split` undoes `join` on newline-free lines followed by more text. */
  lemma {:induction false} SplitJoinThen(lines: seq<string>, rest: string)
    requires |lines| >= 1 && NoNewlines(lines)
    ensures SplitLines(JoinLines(lines) + "\n" + rest) == lines + SplitLines(rest)
  {
    var head := lines[0];
    assert '\n' !in head;
    if |lines| == 1 {
      assert JoinLines(lines) == head;
      SplitAfterLine(head, rest);
    } else {
      var more := lines[1..];
      assert NoNewlines(more) by {
        forall k | 0 <= k < |more| ensures '\n' !in more[k] {
          assert more[k] == lines[k + 1];
        }
      }
      var tail := JoinLines(more) + "\n" + rest;
      assert JoinLines(lines) == head + "\n" + JoinLines(more);
      assert JoinLines(lines) + "\n" + rest == head + "\n" + tail;
      SplitAfterLine(head, tail);
      SplitJoinThen(more, rest);
      assert lines == [head] + more;
    }
  }

  /** `split` undoes `join` on newline-free lines followed by a blank line and one
      more newline-free line. */
  lemma SplitJoinThenLine(lines: seq<string>, last: string)
    requires |lines| >= 1 && NoNewlines(lines) && '\n' !in last
    ensures SplitLines(JoinLines(lines) + "\n\n" + last) == lines + ["", last]
  {
    var rest := "\n" + last;
    assert JoinLines(lines) + "\n\n" + last == JoinLines(lines) + "\n" + rest;
    SplitJoinThen(lines, rest);
    assert rest == "" + "\n" + last;
    SplitAfterLine("", last);
    SplitSingle(last);
  }
}
