/**
 * The line normaliser of `_scrape_url` in webscraper.py: split the extracted
 * text into lines, strip each, drop the blank ones and join the rest with "\n".
 */
module Cleanup {
  import opened Text

  /** Every line is non-empty and has no whitespace at either end. */
  predicate AllClean(lines: seq<string>)
  {
    lines == [] || (lines[0] != [] && IsStripped(lines[0]) && AllClean(lines[1..]))
  }

  lemma {:induction false} AllCleanElems(lines: seq<string>)
    requires AllClean(lines)
    ensures forall k :: 0 <= k < |lines| ==> lines[k] != [] && IsStripped(lines[k])
  {
    if lines != [] {
      AllCleanElems(lines[1..]);
      assert forall k :: 1 <= k < |lines| ==> lines[k] == lines[1..][k - 1];
    }
  }

  /** `[line.strip() for line in lines if line.strip()]`. */
  function StripNonBlank(lines: seq<string>): (r: seq<string>)
    ensures |r| <= |lines|
    ensures AllClean(r)
  {
    if lines == [] then []
    else
      var s := Strip(lines[0]);
      var rest := StripNonBlank(lines[1..]);
      if s != [] then
        assert ([s] + rest)[1..] == rest;
        [s] + rest
      else rest
  }

  lemma {:induction false} StripNonBlankNoBreak(lines: seq<string>)
    requires forall k :: 0 <= k < |lines| ==> NoBreak(lines[k])
    ensures forall k :: 0 <= k < |StripNonBlank(lines)| ==> NoBreak(StripNonBlank(lines)[k])
  {
    if lines != [] {
      var tail := lines[1..];
      assert forall k :: 0 <= k < |tail| ==> NoBreak(tail[k]) by {
        forall k | 0 <= k < |tail| ensures NoBreak(tail[k]) {
          assert tail[k] == lines[k + 1];
        }
      }
      StripNonBlankNoBreak(tail);
      var s, rest := Strip(lines[0]), StripNonBlank(tail);
      if s != [] {
        NoBreakStrip(lines[0]);
        var r := [s] + rest;
        assert StripNonBlank(lines) == r;
        forall k | 0 <= k < |r| ensures NoBreak(r[k]) {
          if k > 0 { assert r[k] == rest[k - 1]; }
        }
      } else {
        assert StripNonBlank(lines) == rest;
      }
    }
  }

  lemma NoBreakStrip(l: string)
    ensures NoBreak(l) ==> NoBreak(Strip(l))
  {
    var r := Strip(l);
    var k :| Framed(l, r, k);
    FramedNoBreak(l, r, k);
  }

  lemma FramedNoBreak(l: string, r: string, k: int)
    requires Framed(l, r, k)
    ensures NoBreak(l) ==> NoBreak(r)
  {
    if NoBreak(l) {
      forall i | 0 <= i < |r| ensures !IsLineBreak(r[i]) { assert r[i] == l[k + i]; }
    }
  }

  /** The cleaned text of `_scrape_url`: `"\n".join(...)` of the stripped non-blank lines. */
  function CleanText(text: string): (r: string)
    ensures SplitLines(r) == StripNonBlank(SplitLines(text))
    ensures AllClean(SplitLines(r))
  {
    var lines := StripNonBlank(SplitLines(text));
    StripNonBlankNoBreak(SplitLines(text));
    AllCleanElems(lines);
    SplitJoin(lines);
    JoinLines(lines)
  }

  /** Lines that are already stripped and non-blank pass through unchanged. */
  lemma {:induction false} StripNonBlankFixed(lines: seq<string>)
    requires AllClean(lines)
    ensures StripNonBlank(lines) == lines
  {
    if lines != [] {
      var l, tail := lines[0], lines[1..];
      assert l != [] && IsStripped(l) && AllClean(tail);
      StripOfStripped(l);
      StripNonBlankFixed(tail);
      assert StripNonBlank(lines) == [l] + tail;
      assert lines == [l] + tail;
    }
  }

  /** Cleaning a cleaned text changes nothing. */
  lemma CleanIdempotent(text: string)
    ensures CleanText(CleanText(text)) == CleanText(text)
  {
    var r := CleanText(text);
    var lines := SplitLines(r);
    StripNonBlankFixed(lines);
    assert StripNonBlank(lines) == StripNonBlank(SplitLines(text));
  }

  lemma {:induction false} StripNonBlankKeepsWords(lines: seq<string>)
    ensures SumWords(StripNonBlank(lines)) == SumWords(lines)
  {
    if lines != [] {
      var s := Strip(lines[0]);
      StripKeepsWords(lines[0]);
      StripEmptyIffBlank(lines[0]);
      NoWordsIffBlank(lines[0]);
      StripNonBlankKeepsWords(lines[1..]);
      var rest := StripNonBlank(lines[1..]);
      if s != [] {
        assert ([s] + rest)[1..] == rest;
      }
    }
  }

  /** Cleaning keeps every word of the text: `len(text.split())` is unchanged. */
  lemma CleanKeepsWords(text: string)
    ensures WordCount(CleanText(text)) == WordCount(text)
  {
    var lines := StripNonBlank(SplitLines(text));
    WordsOfJoin(lines);
    StripNonBlankKeepsWords(SplitLines(text));
    WordsOfLines(text);
  }
}
