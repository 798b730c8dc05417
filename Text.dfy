/** Character classes and the small string operations the form code relies on:
    Python's `str.strip()` restricted to ASCII whitespace, and first/last index
    searches used to restate the email pattern by hand. */
module Text {

  /** Python's `str.isspace()` on the ASCII range: tab, line feed, vertical tab,
      form feed, carriage return, the four separators 0x1C-0x1F and space. */
  predicate IsSpace(c: char) {
    c == ' ' || ('\t' <= c <= '\r') || ('\U{1C}' <= c <= '\U{1F}')
  }

  predicate IsDigit(c: char) {
    '0' <= c <= '9'
  }

  predicate IsAsciiLetter(c: char) {
    ('a' <= c <= 'z') || ('A' <= c <= 'Z')
  }

  predicate IsAsciiAlnum(c: char) {
    IsAsciiLetter(c) || IsDigit(c)
  }

  predicate AllSpace(s: string) {
    forall k :: 0 <= k < |s| ==> IsSpace(s[k])
  }

  /** Index of the first non-whitespace character of `s`, or `|s|`. */
  function StartOfText(s: string): (i: nat)
    ensures i <= |s|
    ensures forall k :: 0 <= k < i ==> IsSpace(s[k])
    ensures i == |s| || !IsSpace(s[i])
  {
    if s == [] || !IsSpace(s[0]) then 0
    else
      var i := StartOfText(s[1..]);
      assert forall k :: 1 <= k < 1 + i ==> s[k] == s[1..][k - 1];
      1 + i
  }

  /** One past the last non-whitespace character of `s`, or 0. */
  function EndOfText(s: string): (j: nat)
    ensures j <= |s|
    ensures forall k :: j <= k < |s| ==> IsSpace(s[k])
    ensures j == 0 || !IsSpace(s[j - 1])
  {
    if s == [] || !IsSpace(s[|s| - 1]) then |s|
    else EndOfText(s[..|s| - 1])
  }

  lemma TrailingSpace(s: string, k: int)
    requires EndOfText(s) <= k < |s|
    ensures IsSpace(s[k])
  {
  }

  /** Drops the leading whitespace of `s`. */
  function TrimStart(s: string): string {
    s[StartOfText(s)..]
  }

  /** Drops the trailing whitespace of `s`. */
  function TrimEnd(s: string): string {
    s[..EndOfText(s)]
  }

  /** Python's `s.strip()` with no argument (ASCII whitespace only). */
  function Strip(s: string): string {
    TrimEnd(TrimStart(s))
  }

  /** Whitespace lies before `i` and from `j` on. */
  predicate SpaceOutside(s: string, i: int, j: int) {
    (forall k :: 0 <= k < i && k < |s| ==> IsSpace(s[k])) &&
    (forall k :: 0 <= j <= k < |s| ==> IsSpace(s[k]))
  }

  /** Where the stripped text sits in `s`: from the first non-whitespace
      character to the last one. */
  lemma StripBounds(s: string, i: int, j: int)
    requires i == StartOfText(s) && j == i + EndOfText(s[i..])
    ensures 0 <= i <= j <= |s|
    ensures Strip(s) == s[i..j]
  {
    assert EndOfText(s[i..]) <= |s| - i;
  }

  /** Only whitespace lies outside those bounds. */
  lemma SpaceAroundStrip(s: string, i: int, j: int)
    requires i == StartOfText(s) && j == i + EndOfText(s[i..])
    ensures SpaceOutside(s, i, j)
  {
    var t := s[i..];
    assert forall k :: 0 <= k < i && k < |s| ==> IsSpace(s[k]);
    forall k | 0 <= j <= k < |s| ensures IsSpace(s[k]) {
      TrailingSpace(t, k - i);
      assert s[k] == t[k - i];
    }
  }

  /** `Strip(s)` is the slice `s[i..j]` left once the whitespace around it is
      removed, and it neither starts nor ends with whitespace. */
  lemma StripIsSlice(s: string)
    ensures exists i, j :: 0 <= i <= j <= |s| && Strip(s) == s[i..j] && SpaceOutside(s, i, j)
    ensures Strip(s) == [] || (!IsSpace(Strip(s)[0]) && !IsSpace(Strip(s)[|Strip(s)| - 1]))
  {
    var i := StartOfText(s);
    var t := s[i..];
    StripBounds(s, i, i + EndOfText(t));
    SpaceAroundStrip(s, i, i + EndOfText(t));
    if Strip(s) != [] {
      assert Strip(s)[0] == t[0];
    }
  }

  /** `not s.strip()`: the string is empty once stripped. */
  predicate IsBlank(s: string) {
    Strip(s) == []
  }

  /** A string is blank exactly when every character in it is whitespace. */
  lemma BlankIffAllSpace(s: string)
    ensures IsBlank(s) <==> AllSpace(s)
  {
    var i := StartOfText(s);
    var t := s[i..];
    if i < |s| {
      assert t[0] == s[i];
    }
  }

  lemma AllSpaceAppend(a: string, b: string)
    ensures AllSpace(a + b) <==> AllSpace(a) && AllSpace(b)
  {
    if AllSpace(a + b) {
      forall k | 0 <= k < |a| ensures IsSpace(a[k]) {
        assert a[k] == (a + b)[k];
      }
      forall k | 0 <= k < |b| ensures IsSpace(b[k]) {
        assert b[k] == (a + b)[|a| + k];
      }
    }
  }

  /** Whitespace added around a string does not make it blank or non-blank. */
  lemma BlankIgnoresSurroundingSpace(pre: string, s: string, post: string)
    requires AllSpace(pre) && AllSpace(post)
    ensures IsBlank(pre + s + post) <==> IsBlank(s)
  {
    BlankIffAllSpace(pre + s + post);
    BlankIffAllSpace(s);
    AllSpaceAppend(pre + s, post);
    AllSpaceAppend(pre, s);
  }

  /** Index of the first occurrence of `c` in `s`, or `|s|` when there is none. */
  function IndexOf(s: string, c: char): (i: nat)
    ensures i <= |s|
    ensures i < |s| ==> s[i] == c
    ensures forall k :: 0 <= k < i ==> s[k] != c
  {
    if s == [] then 0
    else if s[0] == c then 0
    else 1 + IndexOf(s[1..], c)
  }

  /** Index of the last occurrence of `c` in `s`, or -1 when there is none. */
  function LastIndexOf(s: string, c: char): (i: int)
    ensures -1 <= i < |s|
    ensures 0 <= i ==> s[i] == c
    ensures forall k :: i < k < |s| ==> s[k] != c
  {
    if s == [] then -1
    else if s[|s| - 1] == c then |s| - 1
    else LastIndexOf(s[..|s| - 1], c)
  }
}
