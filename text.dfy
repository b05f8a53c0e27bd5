/**
 * The Python `str` operations the crawler relies on: `isspace`, `lower`,
 * `in` (substring search), `strip`, `splitlines`, `"\n".join`, and
 * `len(s.split())`. Strings are sequences of Unicode scalar values, as
 * Python strings are sequences of code points.
 */
module Text {

  /** `c.isspace()` in Python: the characters Unicode classes as whitespace. */
  predicate IsSpace(c: char)
  {
    var n := c as int;
    (0x09 <= n <= 0x0D) || (0x1C <= n <= 0x20) || n == 0x85 || n == 0xA0 || n == 0x1680
    || (0x2000 <= n <= 0x200A) || n == 0x2028 || n == 0x2029 || n == 0x202F
    || n == 0x205F || n == 0x3000
  }

  /** The line boundaries `str.splitlines` splits at (`\r\n` counts as one). */
  predicate IsLineBreak(c: char)
  {
    var n := c as int;
    (0x0A <= n <= 0x0D) || (0x1C <= n <= 0x1E) || n == 0x85 || n == 0x2028 || n == 0x2029
  }

  predicate AllSpace(s: string)
  {
    forall i :: 0 <= i < |s| ==> IsSpace(s[i])
  }

  predicate NoBreak(s: string)
  {
    forall i :: 0 <= i < |s| ==> !IsLineBreak(s[i])
  }

  /** Neither end of `s` is whitespace: `s.strip() == s`. */
  predicate IsStripped(s: string)
  {
    s == [] || (!IsSpace(s[0]) && !IsSpace(s[|s| - 1]))
  }

  // ---------------------------------------------------------------- lower

  /** `lower()` on one character; letters outside ASCII are left as they are. */
  function LowerChar(c: char): char
  {
    if 'A' <= c <= 'Z' then (c as int + 32) as char else c
  }

  function Lower(s: string): (r: string)
    ensures |r| == |s|
    ensures forall i :: 0 <= i < |s| ==> r[i] == LowerChar(s[i])
  {
    seq(|s|, i requires 0 <= i < |s| => LowerChar(s[i]))
  }

  // ------------------------------------------------------------ substring

  /** `pat` occurs in `s` starting at index `i`. */
  predicate OccursAt(s: string, pat: string, i: nat)
  {
    i + |pat| <= |s| && s[i..i + |pat|] == pat
  }

  /** Python's `pat in s`: true of the empty pattern, otherwise a search. */
  function Contains(s: string, pat: string): (b: bool)
    ensures b <==> exists i: nat :: OccursAt(s, pat, i)
    decreases |s|
  {
    if |pat| <= |s| && s[..|pat|] == pat then
      assert OccursAt(s, pat, 0);
      true
    else if s == [] then
      false
    else
      var b := Contains(s[1..], pat);
      if b then
        var i: nat :| OccursAt(s[1..], pat, i);
        assert s[1..][i..i + |pat|] == s[i + 1..i + 1 + |pat|];
        assert OccursAt(s, pat, i + 1);
        true
      else
        assert forall i: nat :: OccursAt(s, pat, i) ==> i > 0 && OccursAt(s[1..], pat, i - 1) by {
          forall i: nat | OccursAt(s, pat, i)
            ensures i > 0 && OccursAt(s[1..], pat, i - 1)
          {
            assert s[1..][i - 1..i - 1 + |pat|] == s[i..i + |pat|];
          }
        }
        false
  }

  /** Python's `any(p in s for p in pats)`. */
  function ContainsAny(s: string, pats: seq<string>): (b: bool)
    ensures b <==> exists k :: 0 <= k < |pats| && Contains(s, pats[k])
  {
    if pats == [] then false
    else Contains(s, pats[0]) || ContainsAny(s, pats[1..])
  }

  // ---------------------------------------------------------------- strip

  /** `s.lstrip()`: drops exactly the longest all-whitespace prefix. */
  function TrimLeft(s: string): (r: string)
    ensures |r| <= |s| && r == s[|s| - |r|..]
    ensures AllSpace(s[..|s| - |r|])
    ensures r == [] || !IsSpace(r[0])
    decreases |s|
  {
    if s != [] && IsSpace(s[0]) then
      var r := TrimLeft(s[1..]);
      var n := |s| - 1 - |r|;
      assert s[..n + 1] == [s[0]] + s[1..][..n];
      AllSpaceConcat([s[0]], s[1..][..n]);
      r
    else
      assert s[..0] == [];
      s
  }

  /** `s.rstrip()`: drops exactly the longest all-whitespace suffix. */
  function TrimRight(s: string): (r: string)
    ensures |r| <= |s| && r == s[..|r|]
    ensures AllSpace(s[|r|..])
    ensures r == [] || !IsSpace(r[|r| - 1])
    decreases |s|
  {
    if s != [] && IsSpace(s[|s| - 1]) then
      var init := s[..|s| - 1];
      var r := TrimRight(init);
      assert s[|r|..] == init[|r|..] + [s[|s| - 1]];
      AllSpaceConcat(init[|r|..], [s[|s| - 1]]);
      r
    else
      assert s[|s|..] == [];
      s
  }

  /** `s` is `r` with the all-whitespace text `s[..k]` before it and `s[k + |r|..]` after it. */
  predicate Framed(s: string, r: string, k: int)
  {
    0 <= k <= |s| - |r| && r == s[k..k + |r|]
    && AllSpace(s[..k]) && AllSpace(s[k + |r|..])
  }

  /** `s.strip()`: `s` without its leading and trailing whitespace. */
  function Strip(s: string): (r: string)
    ensures IsStripped(r)
    ensures exists k :: Framed(s, r, k)
  {
    var t := TrimLeft(s);
    var r := TrimRight(t);
    TrimsFramed(s, t, r);
    r
  }

  lemma TrimsFramed(s: string, t: string, r: string)
    requires |t| <= |s| && t == s[|s| - |t|..] && AllSpace(s[..|s| - |t|])
    requires |r| <= |t| && r == t[..|r|] && AllSpace(t[|r|..])
    ensures Framed(s, r, |s| - |t|)
  {
    var k := |s| - |t|;
    assert r == s[k..k + |r|];
    assert s[k + |r|..] == t[|r|..];
  }

  lemma AllSpaceConcat(a: string, b: string)
    requires AllSpace(a) && AllSpace(b)
    ensures AllSpace(a + b)
  {
    forall i | 0 <= i < |a + b| ensures IsSpace((a + b)[i]) {
      if i < |a| { assert (a + b)[i] == a[i]; } else { assert (a + b)[i] == b[i - |a|]; }
    }
  }

  lemma AllSpaceSlice(s: string, i: int, j: int)
    requires AllSpace(s) && 0 <= i <= j <= |s|
    ensures AllSpace(s[i..j])
  {
    forall m | 0 <= m < j - i ensures IsSpace(s[i..j][m]) { assert s[i..j][m] == s[i + m]; }
  }

  /** `s.strip()` is empty exactly when `s` is all whitespace: the test `if l.strip()` asks that. */
  lemma StripEmptyIffBlank(s: string)
    ensures Strip(s) == [] <==> AllSpace(s)
  {
    var r := Strip(s);
    var k :| Framed(s, r, k);
    FramedEmptyIffBlank(s, r, k);
  }

  lemma FramedEmptyIffBlank(s: string, r: string, k: int)
    requires Framed(s, r, k) && IsStripped(r)
    ensures r == [] <==> AllSpace(s)
  {
    if r == [] {
      assert s[k..] == s[k + |r|..];
      AllSpaceConcat(s[..k], s[k..]);
      assert s == s[..k] + s[k..];
    }
    if r != [] {
      assert r[0] == s[k] && !IsSpace(s[k]);
    }
  }

  lemma StripOfStripped(s: string)
    requires IsStripped(s)
    ensures Strip(s) == s
  {
    assert TrimLeft(s) == s;
    assert TrimRight(s) == s;
  }

  // ----------------------------------------------------------- splitlines

  /** Index of the first line boundary in `s`, or `|s|` when there is none. */
  function FirstBreak(s: string): (i: nat)
    ensures i <= |s|
    ensures i < |s| ==> IsLineBreak(s[i])
    ensures NoBreak(s[..i])
    decreases |s|
  {
    if s == [] || IsLineBreak(s[0]) then 0 else 1 + FirstBreak(s[1..])
  }

  /** The first boundary of `l + t` is where `t` starts, if `l` has none and `t` starts with one. */
  lemma {:induction false} FirstBreakAfter(l: string, t: string)
    requires NoBreak(l)
    requires t == [] || IsLineBreak(t[0])
    ensures FirstBreak(l + t) == |l|
    decreases |l|
  {
    if l == [] {
      assert l + t == t;
    } else {
      assert (l + t)[0] == l[0];
      assert (l + t)[1..] == l[1..] + t;
      FirstBreakAfter(l[1..], t);
    }
  }

  /** Where the text after the boundary at `i` starts: `\r\n` is one boundary. */
  function AfterBreak(s: string, i: nat): (j: nat)
    requires i < |s|
    ensures i < j <= |s|
  {
    if s[i] == '\r' && i + 1 < |s| && s[i + 1] == '\n' then i + 2 else i + 1
  }

  /**
   * Python's `s.splitlines()`: the lines without their terminators; a final
   * terminator does not start an empty last line, and `""` has no lines.
   */
  function SplitLines(s: string): (lines: seq<string>)
    ensures forall k :: 0 <= k < |lines| ==> NoBreak(lines[k])
    decreases |s|
  {
    if s == [] then []
    else
      var i := FirstBreak(s);
      if i == |s| then
        assert s[..i] == s;
        [s]
      else
        [s[..i]] + SplitLines(s[AfterBreak(s, i)..])
  }

  /** Python's `"\n".join(lines)`. */
  function JoinLines(lines: seq<string>): (r: string)
    ensures lines != [] ==> lines[0] <= r
  {
    if lines == [] then ""
    else if |lines| == 1 then lines[0]
    else lines[0] + "\n" + JoinLines(lines[1..])
  }

  /** Splitting what `JoinLines` built gives the lines back, when none is empty or holds a break. */
  lemma {:induction false} SplitJoin(lines: seq<string>)
    requires forall k :: 0 <= k < |lines| ==> lines[k] != [] && NoBreak(lines[k])
    ensures SplitLines(JoinLines(lines)) == lines
  {
    if |lines| == 1 {
      SplitOne(lines[0]);
    } else if |lines| > 1 {
      var tail := lines[1..];
      assert forall k :: 0 <= k < |tail| ==> tail[k] != [] && NoBreak(tail[k]) by {
        forall k | 0 <= k < |tail| ensures tail[k] != [] && NoBreak(tail[k]) {
          assert tail[k] == lines[k + 1];
        }
      }
      SplitJoin(tail);
      SplitCons(lines[0], JoinLines(tail));
      assert lines == [lines[0]] + tail;
    }
  }

  /** A non-empty line without a break is its own only line. */
  lemma SplitOne(l: string)
    requires l != [] && NoBreak(l)
    ensures SplitLines(l) == [l]
  {
    FirstBreakAfter(l, []);
    assert l + [] == l;
  }

  /** A non-empty line without a break, then "\n": the first line, then the lines of the rest. */
  lemma SplitCons(l: string, rest: string)
    requires l != [] && NoBreak(l)
    ensures SplitLines(l + "\n" + rest) == [l] + SplitLines(rest)
  {
    var s := l + "\n" + rest;
    FirstBreakAfter(l, "\n" + rest);
    assert l + ("\n" + rest) == s;
    assert s[..|l|] == l;
    assert s[|l|] == '\n';
    assert AfterBreak(s, |l|) == |l| + 1;
    assert s[|l| + 1..] == rest;
  }

  // ----------------------------------------------------------- word count

  /** Words that start in `s`; `inWord` says the character before `s` ended a word. */
  function WordsFrom(s: string, inWord: bool): (n: nat)
    ensures 2 * n <= |s| + (if inWord then 0 else 1)
    decreases |s|
  {
    if s == [] then 0
    else if IsSpace(s[0]) then WordsFrom(s[1..], false)
    else (if inWord then 0 else 1) + WordsFrom(s[1..], true)
  }

  /**
   * `len(s.split())`: the number of maximal runs of non-whitespace. Words are
   * separated by whitespace, so a text has at most half its length, rounded up, of them.
   */
  function WordCount(s: string): (n: nat)
    ensures 2 * n <= |s| + 1
  {
    WordsFrom(s, false)
  }

  /** A text has no words exactly when it is all whitespace (`s.strip() == ""`). */
  lemma {:induction false} NoWordsIffBlank(s: string)
    ensures WordCount(s) == 0 <==> AllSpace(s)
    decreases |s|
  {
    if s != [] {
      NoWordsIffBlank(s[1..]);
      if IsSpace(s[0]) {
        assert AllSpace(s) <==> AllSpace(s[1..]) by {
          if AllSpace(s[1..]) {
            forall i | 0 <= i < |s| ensures IsSpace(s[i]) {
              if i > 0 { assert s[i] == s[1..][i - 1]; }
            }
          }
        }
      }
    }
  }

  lemma {:induction false} WordsFromConcat(a: string, b: string, inWord: bool)
    requires b == [] || IsSpace(b[0])
    ensures WordsFrom(a + b, inWord) == WordsFrom(a, inWord) + WordsFrom(b, false)
    decreases |a|
  {
    if a == [] {
      assert a + b == b;
    } else {
      assert (a + b)[1..] == a[1..] + b;
      WordsFromConcat(a[1..], b, !IsSpace(a[0]));
    }
  }

  /** Words do not run across whitespace: counts of two texts add when the second starts with whitespace. */
  lemma WordCountConcat(a: string, b: string)
    requires b == [] || IsSpace(b[0])
    ensures WordCount(a + b) == WordCount(a) + WordCount(b)
  {
    WordsFromConcat(a, b, false);
  }

  /** Leading whitespace adds no word. */
  lemma {:induction false} WordCountSkipSpace(sp: string, s: string)
    requires AllSpace(sp)
    ensures WordCount(sp + s) == WordCount(s)
    decreases |sp|
  {
    if sp != [] {
      assert (sp + s)[0] == sp[0] && IsSpace(sp[0]);
      assert (sp + s)[1..] == sp[1..] + s;
      AllSpaceSlice(sp, 1, |sp|);
      assert sp[1..|sp|] == sp[1..];
      calc {
        WordCount(sp + s);
        WordsFrom(sp + s, false);
        WordsFrom(sp[1..] + s, false);
      }
      WordCountSkipSpace(sp[1..], s);
    } else {
      assert sp + s == s;
    }
  }

  /** `strip()` keeps every word. */
  lemma StripKeepsWords(s: string)
    ensures WordCount(Strip(s)) == WordCount(s)
  {
    var r := Strip(s);
    var k :| Framed(s, r, k);
    FramedWords(s, r, k);
  }

  /** Whitespace around a text adds no word to it. */
  lemma FramedWords(s: string, r: string, k: int)
    requires Framed(s, r, k)
    ensures WordCount(s) == WordCount(r)
  {
    var head, tail := s[..k], s[k + |r|..];
    assert s == head + (r + tail) by {
      assert s == s[..k] + s[k..];
      assert s[k..] == r + tail;
    }
    AroundWords(head, r, tail);
  }

  lemma AroundWords(head: string, r: string, tail: string)
    requires AllSpace(head) && AllSpace(tail)
    ensures WordCount(head + (r + tail)) == WordCount(r)
  {
    WordCountSkipSpace(head, r + tail);
    if tail != [] {
      assert IsSpace(tail[0]);
    }
    WordCountConcat(r, tail);
    NoWordsIffBlank(tail);
  }

  function SumWords(lines: seq<string>): nat
  {
    if lines == [] then 0 else WordCount(lines[0]) + SumWords(lines[1..])
  }

  /** The words of a text are the words of its lines (`splitlines` only cuts at whitespace). */
  lemma {:induction false} WordsOfLines(s: string)
    ensures WordCount(s) == SumWords(SplitLines(s))
    decreases |s|
  {
    if s != [] {
      var i := FirstBreak(s);
      if i < |s| {
        var j := AfterBreak(s, i);
        var line, rest := s[..i], SplitLines(s[j..]);
        assert SplitLines(s) == [line] + rest;
        assert ([line] + rest)[1..] == rest;
        WordsAroundBreak(s, i);
        WordsOfLines(s[j..]);
      } else {
        assert s[..i] == s;
      }
    }
  }

  /** The boundary at `i` is whitespace, so the words before and after it add up. */
  lemma WordsAroundBreak(s: string, i: nat)
    requires i < |s| && IsLineBreak(s[i])
    ensures WordCount(s) == WordCount(s[..i]) + WordCount(s[AfterBreak(s, i)..])
  {
    var j := AfterBreak(s, i);
    assert s == s[..i] + s[i..];
    assert IsSpace(s[i]);
    WordCountConcat(s[..i], s[i..]);
    assert s[i..] == s[i..j] + s[j..];
    assert AllSpace(s[i..j]) by {
      forall m | 0 <= m < j - i ensures IsSpace(s[i..j][m]) {
        assert IsLineBreak(s[i + m]);
      }
    }
    WordCountSkipSpace(s[i..j], s[j..]);
  }

  /** Joining lines with `"\n"` keeps every word of every line. */
  lemma {:induction false} WordsOfJoin(lines: seq<string>)
    ensures WordCount(JoinLines(lines)) == SumWords(lines)
  {
    if |lines| == 1 {
    } else if |lines| > 1 {
      var rest := JoinLines(lines[1..]);
      assert JoinLines(lines) == lines[0] + ("\n" + rest);
      WordCountConcat(lines[0], "\n" + rest);
      WordCountSkipSpace("\n", rest);
      WordsOfJoin(lines[1..]);
    }
  }
}
