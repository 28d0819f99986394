/** Ticker detection (main.py:60-62): a post mentions a ticker when its
    upper-cased text contains `$TICKER` or `TICKER` as a substring. */
module Matcher {

  /** `str.upper()` on one character, restricted to ASCII letters. */
  function UpperChar(c: char): char {
    if 'a' <= c <= 'z' then (c as int - 32) as char else c
  }

  /** `s.upper()`: every lower-case letter replaced by its capital, nothing else changed. */
  function Upper(s: string): (r: string)
    ensures |r| == |s|
    ensures forall i :: 0 <= i < |s| ==> r[i] == UpperChar(s[i])
    ensures forall i :: 0 <= i < |r| ==> !('a' <= r[i] <= 'z')
  {
    seq(|s|, i requires 0 <= i < |s| => UpperChar(s[i]))
  }

  /** `pat` occurs in `text` starting at index `i`. */
  ghost predicate OccursAt(pat: string, text: string, i: int) {
    0 <= i <= |text| - |pat| && text[i..i + |pat|] == pat
  }

  /** `pat` occurs in `text` as a contiguous run of characters. */
  ghost predicate IsInfix(pat: string, text: string) {
    exists i :: OccursAt(pat, text, i)
  }

  /** An occurrence of `pat` in `text` is at the front or in `text[1..]`. */
  lemma InfixStep(pat: string, text: string)
    requires |pat| <= |text| && text != []
    ensures IsInfix(pat, text) <==> (text[..|pat|] == pat || IsInfix(pat, text[1..]))
  {
    if IsInfix(pat, text) && text[..|pat|] != pat {
      var i :| OccursAt(pat, text, i);
      assert i != 0;
      assert text[1..][i - 1..i - 1 + |pat|] == text[i..i + |pat|];
      assert OccursAt(pat, text[1..], i - 1);
    }
    if text[..|pat|] == pat {
      assert OccursAt(pat, text, 0);
    }
    if IsInfix(pat, text[1..]) {
      var i :| OccursAt(pat, text[1..], i);
      assert text[i + 1..i + 1 + |pat|] == text[1..][i..i + |pat|];
      assert OccursAt(pat, text, i + 1);
    }
  }

  /** Python's `pat in text` on strings. */
  function Contains(text: string, pat: string): (r: bool)
    ensures r <==> IsInfix(pat, text)
    decreases |text|
  {
    if |pat| > |text| then false
    else if text[..|pat|] == pat then
      assert OccursAt(pat, text, 0);
      true
    else
      InfixStep(pat, text);
      Contains(text[1..], pat)
  }

  /** Any text containing `$T` also contains `T`. */
  lemma DollarSubsumed(ticker: string, text: string)
    requires IsInfix("$" + ticker, text)
    ensures IsInfix(ticker, text)
  {
    var p := "$" + ticker;
    var i :| OccursAt(p, text, i);
    assert text[i + 1..i + 1 + |ticker|] == text[i..i + |p|][1..] == ticker;
    assert OccursAt(ticker, text, i + 1);
  }

  /** The match test of main.py:62: the upper-cased text contains the ticker
      prefixed with a dollar sign, or else the bare ticker. */
  function Mentions(fullText: string, ticker: string): (r: bool)
    ensures r <==> IsInfix(ticker, Upper(fullText))
  {
    var upper := Upper(fullText);
    if Contains(upper, "$" + ticker) then
      DollarSubsumed(ticker, upper);
      true
    else
      Contains(upper, ticker)
  }

  lemma UpperIdempotent(s: string)
    ensures Upper(Upper(s)) == Upper(s)
  {
  }

  /** Matching ignores the case of the post text. */
  lemma MentionsIgnoresCase(fullText: string, ticker: string)
    ensures Mentions(Upper(fullText), ticker) == Mentions(fullText, ticker)
  {
    UpperIdempotent(fullText);
  }

  /** The test is on substrings, not words: a word that merely contains a
      ticker counts as a mention of it. */
  lemma WordContainingTicker(text: string)
    requires text == "camcorder"
    ensures Mentions(text, "AMC")
  {
    var upper := Upper(text);
    assert upper[1] == 'A' && upper[2] == 'M' && upper[3] == 'C';
    assert upper[1..4] == "AMC";
    assert OccursAt("AMC", upper, 1);
  }
}
