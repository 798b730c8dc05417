/** The two field validators of the request form: `validar_email`, an anchored
    character-class pattern, and `validar_telefone`, a digit count. */
module Validadores {
  import opened Text

  // ---------------------------------------------------------------------------
  // Email
  // ---------------------------------------------------------------------------

  /** `[a-zA-Z0-9._%+-]`: a character allowed before the `@`. */
  predicate IsLocalChar(c: char) {
    IsAsciiAlnum(c) || c == '.' || c == '_' || c == '%' || c == '+' || c == '-'
  }

  /** `[a-zA-Z0-9.-]`: a character allowed after the `@`. */
  predicate IsDomainChar(c: char) {
    IsAsciiAlnum(c) || c == '.' || c == '-'
  }

  predicate AllLocal(s: string) {
    forall k :: 0 <= k < |s| ==> IsLocalChar(s[k])
  }

  predicate AllDomain(s: string) {
    forall k :: 0 <= k < |s| ==> IsDomainChar(s[k])
  }

  predicate AllLetters(s: string) {
    forall k :: 0 <= k < |s| ==> IsAsciiLetter(s[k])
  }

  /** The pattern `[a-zA-Z0-9._%+-]+@[a-zA-Z0-9.-]+\.[a-zA-Z]{2,}` matching the
      whole of `s`, stated as the existence of the positions of the `@` and of
      the `.` that the pattern's two literal characters match. */
  ghost predicate MatchesPattern(s: string) {
    exists at, dot ::
      1 <= at && at + 2 <= dot && dot + 3 <= |s| &&
      s[at] == '@' && s[dot] == '.' &&
      AllLocal(s[..at]) && AllDomain(s[at + 1..dot]) && AllLetters(s[dot + 1..])
  }

  /** The part after the `@`: domain characters only, and its last `.` has at
      least one character before it and is followed by two or more letters and
      nothing else. */
  predicate DomainOk(d: string) {
    AllDomain(d) &&
    var k := LastIndexOf(d, '.');
    1 <= k && k + 3 <= |d| && AllLetters(d[k + 1..])
  }

  /** The pattern restated by hand: a non-empty local part before the first `@`,
      and a valid domain after it. */
  predicate EmailShapeOk(s: string) {
    var at := IndexOf(s, '@');
    1 <= at < |s| && AllLocal(s[..at]) && DomainOk(s[at + 1..])
  }

  /** `validar_email`: `re.match` with `^...$`. Python's `$` also matches just
      before a final line feed, so one trailing `\n` is tolerated. */
  predicate ValidarEmail(s: string) {
    EmailShapeOk(s) || (|s| > 0 && s[|s| - 1] == '\n' && EmailShapeOk(s[..|s| - 1]))
  }

  /** Every string the hand-written check accepts matches the pattern. */
  lemma EmailShapeMatchesPattern(s: string)
    requires EmailShapeOk(s)
    ensures MatchesPattern(s)
  {
    var at := IndexOf(s, '@');
    var d := s[at + 1..];
    var k := LastIndexOf(d, '.');
    var dot := at + 1 + k;
    assert AllDomain(d[..k]) by {
      forall m | 0 <= m < k ensures IsDomainChar(d[..k][m]) {
        assert d[..k][m] == d[m];
      }
    }
    assert s[at + 1..dot] == d[..k];
    assert s[dot + 1..] == d[k + 1..];
    assert s[dot] == d[k];
    assert 1 <= at && at + 2 <= dot && dot + 3 <= |s| && s[at] == '@' && s[dot] == '.' &&
           AllLocal(s[..at]) && AllDomain(s[at + 1..dot]) && AllLetters(s[dot + 1..]);
  }

  /** A domain built as the pattern builds it passes `DomainOk`: letters
      contain no `.`, so the separating `.` is the last one. */
  lemma DomainOkFromParts(u: string, v: string)
    requires |u| >= 1 && AllDomain(u) && |v| >= 2 && AllLetters(v)
    ensures DomainOk(u + "." + v)
  {
    var d := u + "." + v;
    var k := |u|;
    assert d[k] == '.';
    assert d[k + 1..] == v;
    forall m | 0 <= m < |d| ensures IsDomainChar(d[m]) {
      if m < k {
        assert d[m] == u[m];
      } else if m > k {
        assert d[m] == v[m - k - 1];
      }
    }
    forall m | k < m < |d| ensures d[m] != '.' {
      assert d[m] == v[m - k - 1];
    }
    assert LastIndexOf(d, '.') == k;
  }

  /** The first `@` of `s` is at `at` when the characters before it are local
      characters, none of which is `@`. */
  lemma FirstAtAfterLocalPart(s: string, at: nat)
    requires at < |s| && s[at] == '@' && AllLocal(s[..at])
    ensures IndexOf(s, '@') == at
  {
    forall m | 0 <= m < at ensures s[m] != '@' {
      assert s[m] == s[..at][m];
    }
  }

  /** A string built from the pattern's parts passes the hand-written check. */
  lemma PartsMatchEmailShape(s: string, at: nat, dot: nat)
    requires 1 <= at && at + 2 <= dot && dot + 3 <= |s|
    requires s[at] == '@' && s[dot] == '.'
    requires AllLocal(s[..at]) && AllDomain(s[at + 1..dot]) && AllLetters(s[dot + 1..])
    ensures EmailShapeOk(s)
  {
    FirstAtAfterLocalPart(s, at);
    assert s[at + 1..] == s[at + 1..dot] + "." + s[dot + 1..];
    DomainOkFromParts(s[at + 1..dot], s[dot + 1..]);
  }

  /** Every string the pattern matches passes the hand-written check: the `@`
      the pattern uses is the first one, and its `.` is the last one. */
  lemma PatternMatchesEmailShape(s: string)
    requires MatchesPattern(s)
    ensures EmailShapeOk(s)
  {
    var at, dot :|
      1 <= at && at + 2 <= dot && dot + 3 <= |s| &&
      s[at] == '@' && s[dot] == '.' &&
      AllLocal(s[..at]) && AllDomain(s[at + 1..dot]) && AllLetters(s[dot + 1..]);
    PartsMatchEmailShape(s, at, dot);
  }

  /** The hand-written check accepts exactly the strings the pattern matches. */
  lemma EmailShapeIffPattern(s: string)
    ensures EmailShapeOk(s) <==> MatchesPattern(s)
  {
    if EmailShapeOk(s) {
      EmailShapeMatchesPattern(s);
    }
    if MatchesPattern(s) {
      PatternMatchesEmailShape(s);
    }
  }

  /** `validar_email` in terms of the pattern alone. */
  lemma ValidarEmailIffPattern(s: string)
    ensures ValidarEmail(s) <==>
      MatchesPattern(s) || (|s| > 0 && s[|s| - 1] == '\n' && MatchesPattern(s[..|s| - 1]))
  {
    EmailShapeIffPattern(s);
    if |s| > 0 {
      EmailShapeIffPattern(s[..|s| - 1]);
    }
  }

  /** The `@` found by the hand-written check is the only one: domain
      characters exclude `@`. */
  lemma EmailShapeOnlyAt(s: string)
    requires EmailShapeOk(s)
    ensures forall k :: 0 <= k < |s| && s[k] == '@' ==> k == IndexOf(s, '@')
  {
    var at := IndexOf(s, '@');
    var d := s[at + 1..];
    forall k | at < k < |s| ensures s[k] != '@' {
      assert s[k] == d[k - at - 1];
    }
  }

  /** An accepted address has exactly one `@`, and at least one character
      before and after it. */
  lemma ValidarEmailOneAt(s: string)
    requires ValidarEmail(s)
    ensures exists at :: 0 < at < |s| - 1 && s[at] == '@' &&
                         forall k :: 0 <= k < |s| && s[k] == '@' ==> k == at
  {
    if EmailShapeOk(s) {
      EmailShapeOnlyAt(s);
      var at := IndexOf(s, '@');
      assert 0 < at < |s| - 1 && s[at] == '@';
    } else {
      var t := s[..|s| - 1];
      EmailShapeOnlyAt(t);
      var at := IndexOf(t, '@');
      assert s[at] == t[at];
      forall k | 0 <= k < |s| && s[k] == '@' ensures k == at {
        assert k < |t| && s[k] == t[k];
      }
    }
  }

  /** A leading space is never part of an accepted address. */
  lemma ValidarEmailRejectsLeadingSpace(s: string)
    ensures !ValidarEmail(" " + s)
  {
  }

  /** A trailing space is never part of an accepted address. */
  lemma ValidarEmailRejectsTrailingSpace(s: string)
    ensures !ValidarEmail(s + " ")
  {
  }

  // ---------------------------------------------------------------------------
  // Telephone
  // ---------------------------------------------------------------------------

  /** `re.sub(r'[^\d]', '', s)`: the digits of `s`, in order. */
  function Digits(s: string): (r: string)
    ensures forall k :: 0 <= k < |r| ==> IsDigit(r[k])
    ensures forall c :: multiset(r)[c] == if IsDigit(c) then multiset(s)[c] else 0
  {
    if s == [] then []
    else
      assert s == [s[0]] + s[1..];
      if IsDigit(s[0]) then [s[0]] + Digits(s[1..]) else Digits(s[1..])
  }

  /** `validar_telefone`: between 10 and 15 digits, whatever else the string holds. */
  predicate ValidarTelefone(s: string) {
    var n := |Digits(s)|;
    n >= 10 && n <= 15
  }

  /** The positions of `s` that hold a digit. */
  ghost function DigitPositions(s: string): set<nat> {
    set k: nat | k < |s| && IsDigit(s[k])
  }

  lemma {:induction false} DigitsAppend(a: string, b: string)
    ensures Digits(a + b) == Digits(a) + Digits(b)
  {
    if a == [] {
      assert a + b == b;
    } else {
      assert (a + b)[0] == a[0] && (a + b)[1..] == a[1..] + b;
      DigitsAppend(a[1..], b);
    }
  }

  lemma DigitPositionsSnoc(t: string, x: char)
    ensures |DigitPositions(t + [x])| == |DigitPositions(t)| + if IsDigit(x) then 1 else 0
  {
    var s := t + [x];
    var p, q := DigitPositions(s), DigitPositions(t);
    forall k: nat ensures k in p <==> k in q || (k == |t| && IsDigit(x)) {
      if k < |t| {
        assert s[k] == t[k];
      }
    }
    if IsDigit(x) {
      assert p == q + {|t|};
    } else {
      assert p == q;
    }
  }

  /** The digit projection has one character per digit position of `s`. */
  lemma {:induction false} DigitsCountsPositions(s: string)
    ensures |Digits(s)| == |DigitPositions(s)|
  {
    if s != [] {
      var t, x := s[..|s| - 1], s[|s| - 1];
      assert s == t + [x];
      DigitsAppend(t, [x]);
      assert Digits([x]) == if IsDigit(x) then [x] else [] by {
        assert [x][1..] == [];
      }
      DigitsCountsPositions(t);
      DigitPositionsSnoc(t, x);
    }
  }

  /** `validar_telefone` accepts exactly the strings with 10 to 15 digit characters. */
  lemma ValidarTelefoneIffDigitCount(s: string)
    ensures ValidarTelefone(s) <==> 10 <= |DigitPositions(s)| <= 15
  {
    DigitsCountsPositions(s);
  }

  /** Inserting a non-digit anywhere never changes the verdict. */
  lemma ValidarTelefoneIgnoresNonDigit(s: string, i: nat, c: char)
    requires i <= |s| && !IsDigit(c)
    ensures ValidarTelefone(s[..i] + [c] + s[i..]) == ValidarTelefone(s)
  {
    var a, b := s[..i], s[i..];
    assert s == a + b;
    DigitsAppend(a + [c], b);
    DigitsAppend(a, [c]);
    DigitsAppend(a, b);
    assert Digits([c]) == Digits([c][1..]);
    assert [c][1..] == [];
  }

  lemma {:induction false} DigitsOfSpace(w: string)
    requires AllSpace(w)
    ensures Digits(w) == []
  {
    if w != [] {
      DigitsOfSpace(w[1..]);
    }
  }

  /** Whitespace around the number never changes the verdict. */
  lemma ValidarTelefoneIgnoresSurroundingSpace(pre: string, s: string, post: string)
    requires AllSpace(pre) && AllSpace(post)
    ensures ValidarTelefone(pre + s + post) == ValidarTelefone(s)
  {
    DigitsAppend(pre + s, post);
    DigitsAppend(pre, s);
    DigitsOfSpace(pre);
    DigitsOfSpace(post);
  }

  /** An accepted number, or address, always holds a character that is not whitespace. */
  lemma AcceptedIsNotBlank(s: string)
    ensures ValidarTelefone(s) ==> !IsBlank(s)
    ensures ValidarEmail(s) ==> !IsBlank(s)
  {
    BlankIffAllSpace(s);
    if ValidarTelefone(s) && AllSpace(s) {
      DigitsOfSpace(s);
    }
    if ValidarEmail(s) {
      ValidarEmailOneAt(s);
    }
  }
}
