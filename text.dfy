/** Text normalisation of post titles and bodies (`clean_text`, main.py:47-48):
    every newline becomes a space, then surrounding whitespace is stripped. */
module Text {

  /** Python's `str.isspace` on one code point: the characters `str.strip()`
      removes when called without arguments. */
  function IsSpace(c: char): (b: bool)
    ensures c == ' ' || c == '\t' || c == '\n' || c == '\r' ==> b
    ensures '!' <= c <= '~' ==> !b
  {
    var n := c as int;
    || 9 <= n <= 13
    || 28 <= n <= 32
    || n == 0x85 || n == 0xA0 || n == 0x1680
    || 0x2000 <= n <= 0x200A
    || n == 0x2028 || n == 0x2029 || n == 0x202F || n == 0x205F || n == 0x3000
  }

  predicate AllSpace(s: string) {
    forall i :: 0 <= i < |s| ==> IsSpace(s[i])
  }

  /** Neither the first nor the last character is whitespace. */
  predicate Trimmed(s: string) {
    s == [] || (!IsSpace(s[0]) && !IsSpace(s[|s| - 1]))
  }

  /** Every newline replaced by a space. */
  function ReplaceNewlines(s: string): (r: string)
    ensures |r| == |s|
    ensures forall i :: 0 <= i < |s| ==> r[i] == if s[i] == '\n' then ' ' else s[i]
    ensures '\n' !in r
  {
    if s == [] then [] else [if s[0] == '\n' then ' ' else s[0]] + ReplaceNewlines(s[1..])
  }

  /** The index of the first character at or after `i` that is not whitespace, or `|s|`. */
  function SkipSpace(s: string, i: nat): (j: nat)
    requires i <= |s|
    ensures i <= j <= |s|
    ensures forall k :: i <= k < j ==> IsSpace(s[k])
    ensures j == |s| || !IsSpace(s[j])
    decreases |s| - i
  {
    if i < |s| && IsSpace(s[i]) then SkipSpace(s, i + 1) else i
  }

  /** The index just past the last character before `j` that is not whitespace, or 0. */
  function SkipSpaceBack(s: string, j: nat): (i: nat)
    requires j <= |s|
    ensures i <= j
    ensures forall k :: i <= k < j ==> IsSpace(s[k])
    ensures i == 0 || !IsSpace(s[i - 1])
  {
    if j > 0 && IsSpace(s[j - 1]) then SkipSpaceBack(s, j - 1) else j
  }

  /** Python's strip without arguments: `s` with its leading and trailing whitespace removed. */
  function Strip(s: string): (r: string)
    ensures Trimmed(r)
    ensures exists i :: 0 <= i <= |s| - |r| && r == s[i..i + |r|] && AllSpace(s[..i]) && AllSpace(s[i + |r|..])
  {
    var i := SkipSpace(s, 0);
    var j := SkipSpaceBack(s, |s|);
    if i < j then
      assert AllSpace(s[..i]) && AllSpace(s[j..]);
      s[i..j]
    else
      assert AllSpace(s[..|s|]);
      []
  }

  /** The normalisation of main.py:47-48: newlines to spaces, then strip. */
  function CleanText(s: string): (r: string)
    ensures '\n' !in r
    ensures Trimmed(r)
  {
    var t := ReplaceNewlines(s);
    var r := Strip(t);
    assert forall j :: 0 <= j < |r| ==> r[j] in t;
    r
  }

  /** Stripping is characterised by its result: whenever a text is whitespace, then a
      trimmed middle part, then whitespace, stripping yields exactly that middle part. */
  lemma StripUnique(a: string, m: string, b: string)
    requires AllSpace(a) && AllSpace(b) && Trimmed(m)
    ensures Strip(a + m + b) == m
  {
    var s := a + m + b;
    var i := SkipSpace(s, 0);
    var j := SkipSpaceBack(s, |s|);
    if m == [] {
      forall k | 0 <= k < |s| ensures IsSpace(s[k]) {
        if k < |a| { assert s[k] == a[k]; } else { assert s[k] == b[k - |a|]; }
      }
      assert i == |s|;
    } else {
      assert s[|a|] == m[0] && s[|a| + |m| - 1] == m[|m| - 1];
      forall k | 0 <= k < |a| ensures IsSpace(s[k]) { assert s[k] == a[k]; }
      forall k | |a| + |m| <= k < |s| ensures IsSpace(s[k]) { assert s[k] == b[k - |a| - |m|]; }
      assert i == |a|;
      assert j == |a| + |m|;
      assert s[i..j] == m;
    }
  }

  /** A text without newlines and without surrounding whitespace is already clean. */
  lemma CleanTextFixed(s: string)
    requires '\n' !in s && Trimmed(s)
    ensures CleanText(s) == s
  {
    assert ReplaceNewlines(s) == s;
    assert s == [] + s + [];
    StripUnique([], s, []);
  }

  /** Cleaning a cleaned text changes nothing. */
  lemma CleanTextIdempotent(s: string)
    ensures CleanText(CleanText(s)) == CleanText(s)
  {
    CleanTextFixed(CleanText(s));
  }

  /** Stripping yields the empty string exactly on whitespace-only input. */
  lemma StripBlank(t: string)
    ensures Strip(t) == [] <==> AllSpace(t)
  {
    if AllSpace(t) {
      assert t == t + [] + [];
      StripUnique(t, [], []);
    }
    if Strip(t) == [] {
      var i :| 0 <= i <= |t| && AllSpace(t[..i]) && AllSpace(t[i..]);
      forall j | 0 <= j < |t| ensures IsSpace(t[j]) {
        if j < i { assert t[..i][j] == t[j]; } else { assert t[i..][j - i] == t[j]; }
      }
    }
  }

  /** Cleaning yields the empty string exactly when the input is whitespace and newlines only. */
  lemma CleanTextBlank(s: string)
    ensures CleanText(s) == [] <==> AllSpace(s)
  {
    var t := ReplaceNewlines(s);
    StripBlank(t);
    assert AllSpace(t) <==> AllSpace(s) by {
      assert forall j :: 0 <= j < |s| ==> (IsSpace(t[j]) <==> IsSpace(s[j]));
    }
  }
}
