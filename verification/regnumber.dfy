/** The PT registration number: the as-you-type formatter that lays the
    digits and letters out as `YYYY/AAA/NNNN`, and the pattern the submit
    handler checks, `^\d{4}/[A-Z]{3}/\d{4}$`. */
module RegNumber {
  import opened Text

  predicate IsDigit(c: char) {
    '0' <= c <= '9'
  }

  predicate IsUpperLetter(c: char) {
    'A' <= c <= 'Z'
  }

  predicate IsLetter(c: char) {
    IsUpperLetter(c) || IsLowerLetter(c)
  }

  /** The class `[a-zA-Z0-9]`. */
  predicate IsAlnum(c: char) {
    IsDigit(c) || IsLetter(c)
  }

  predicate AllAlnum(s: string) {
    forall i | 0 <= i < |s| :: IsAlnum(s[i])
  }

  /** `value.replace(/[^a-zA-Z0-9]/g, '')`: keeps the alphanumerics, in order. */
  function KeepAlnum(s: string): (r: string)
    ensures AllAlnum(r)
    ensures |r| <= |s|
    ensures AllAlnum(s) ==> r == s
    decreases |s|
  {
    if s == [] then [] else (if IsAlnum(s[0]) then [s[0]] else []) + KeepAlnum(s[1..])
  }

  /** The slicing half of the formatter, applied to the cleaned string:
      up to four characters, then `/` and up to three upper-cased characters
      once there are more than four, then `/` and up to four characters once
      there are more than seven. */
  function Layout(c: string): string {
    var n := |c|;
    (if n > 0 then c[..Min(n, 4)] else [])
    + (if n > 4 then "/" + Upper(c[4..Min(n, 7)]) else [])
    + (if n > 7 then "/" + c[7..Min(n, 11)] else [])
  }

  /** `formatRegNumber`. */
  function FormatRegNumber(value: string): string {
    Layout(KeepAlnum(value))
  }

  /** What the formatter keeps of the cleaned input: its first eleven
      characters, with the three code letters (positions 4 to 6) upper-cased. */
  function Normalised(c: string): (r: string)
    ensures |r| == Min(|c|, 11)
  {
    seq(Min(|c|, 11), i requires 0 <= i < Min(|c|, 11) => if 4 <= i < 7 then UpperChar(c[i]) else c[i])
  }

  /** `^\d{4}/[A-Z]{3}/\d{4}$` (JavaScript's `\d` is ASCII only). */
  predicate MatchesPattern(s: string) {
    && |s| == 13
    && (forall i | 0 <= i < 4 :: IsDigit(s[i]))
    && s[4] == '/'
    && (forall i | 5 <= i < 8 :: IsUpperLetter(s[i]))
    && s[8] == '/'
    && (forall i | 9 <= i < 13 :: IsDigit(s[i]))
  }

  /** Cleaned input that formats to a valid number: four digits, three
      letters of either case, four digits, and possibly more (dropped). */
  predicate WellShaped(c: string) {
    && |c| >= 11
    && (forall i | 0 <= i < 4 :: IsDigit(c[i]))
    && (forall i | 4 <= i < 7 :: IsLetter(c[i]))
    && (forall i | 7 <= i < 11 :: IsDigit(c[i]))
  }

  // ---------------------------------------------------------------------------
  // Lemmas

  lemma {:induction false} KeepAlnumAppend(a: string, b: string)
    ensures KeepAlnum(a + b) == KeepAlnum(a) + KeepAlnum(b)
    decreases |a|
  {
    if a == [] {
      assert a + b == b;
    } else {
      var head := if IsAlnum(a[0]) then [a[0]] else [];
      assert (a + b)[0] == a[0];
      assert (a + b)[1..] == a[1..] + b;
      assert KeepAlnum(a + b) == head + KeepAlnum(a[1..] + b);
      KeepAlnumAppend(a[1..], b);
      assert KeepAlnum(a) == head + KeepAlnum(a[1..]);
    }
  }

  lemma SlashDropped(x: string)
    requires AllAlnum(x)
    ensures KeepAlnum("/" + x) == x
  {
    assert ("/" + x)[1..] == x;
  }

  lemma UpperCharKeepsAlnum(c: char)
    ensures IsAlnum(UpperChar(c)) <==> IsAlnum(c)
    ensures IsUpperLetter(UpperChar(c)) <==> IsLetter(c)
    ensures !IsLowerLetter(UpperChar(c))
  {
  }

  /** Position by position, where each character of the layout comes from. */
  lemma LayoutAt(c: string)
    ensures var r := Layout(c);
      && |r| == Min(|c|, 11) + (if |c| > 4 then 1 else 0) + (if |c| > 7 then 1 else 0)
      && (forall i | 0 <= i < |r| && i < 4 :: r[i] == c[i])
      && (|c| > 4 ==> r[4] == '/')
      && (forall i | 5 <= i < |r| && i < 8 :: r[i] == UpperChar(c[i - 1]))
      && (|c| > 7 ==> r[8] == '/')
      && (forall i | 9 <= i < |r| :: r[i] == c[i - 2])
  {
  }

  /** The output has the shape `YYYY/AAA/NNNN` or a prefix of it: at most 13
      characters, only alphanumerics and `/`, a `/` exactly at positions 4 and
      8 (present once more than four, resp. seven, alphanumerics were typed),
      and no lower-case letter among the code positions 5 to 7. */
  lemma FormatShape(value: string)
    ensures var r := FormatRegNumber(value); var n := |KeepAlnum(value)|;
      && |r| <= 13
      && |r| == Min(n, 11) + (if n > 4 then 1 else 0) + (if n > 7 then 1 else 0)
      && (forall i | 0 <= i < |r| :: IsAlnum(r[i]) || r[i] == '/')
      && (forall i | 0 <= i < |r| :: r[i] == '/' <==> i == 4 || i == 8)
      && (|r| > 4 <==> n > 4)
      && (|r| > 8 <==> n > 7)
      && (forall i | 5 <= i < |r| && i < 8 :: !IsLowerLetter(r[i]))
  {
    var c := KeepAlnum(value);
    LayoutAt(c);
    forall i | 0 <= i < |c| {
      UpperCharKeepsAlnum(c[i]);
    }
  }

  /** The cleaned input reaches the code letters: the first slash is dropped
      again and the upper-cased code letters are alphanumeric. */
  lemma KeepCodePart(c: string)
    requires AllAlnum(c) && |c| > 4
    ensures var u := Upper(c[4..Min(|c|, 7)]);
      AllAlnum(u) && KeepAlnum(c[..4] + ("/" + u)) == c[..4] + u
  {
    var u := Upper(c[4..Min(|c|, 7)]);
    forall i | 0 <= i < |u|
      ensures IsAlnum(u[i])
    {
      UpperCharKeepsAlnum(c[4 + i]);
    }
    SlashDropped(u);
    KeepAlnumAppend(c[..4], "/" + u);
  }

  lemma LayoutKeepsLong(c: string)
    requires AllAlnum(c) && |c| > 7
    ensures KeepAlnum(Layout(c)) == Normalised(c)
  {
    var a := c[..4];
    var u := Upper(c[4..7]);
    var d := c[7..Min(|c|, 11)];
    KeepCodePart(c);
    SlashDropped(d);
    assert Layout(c) == (a + ("/" + u)) + ("/" + d);
    KeepAlnumAppend(a + ("/" + u), "/" + d);
    assert KeepAlnum(Layout(c)) == a + u + d;
    var r := a + u + d;
    forall i | 0 <= i < |r|
      ensures r[i] == Normalised(c)[i]
    {
      if i < 4 {
        assert r[i] == a[i];
      } else if i < 7 {
        assert r[i] == u[i - 4];
      } else {
        assert r[i] == d[i - 7];
      }
    }
  }

  lemma LayoutKeepsShort(c: string)
    requires AllAlnum(c) && |c| <= 4
    ensures KeepAlnum(Layout(c)) == Normalised(c)
  {
    assert Layout(c) == c;
    var r := Normalised(c);
    forall i | 0 <= i < |c|
      ensures r[i] == c[i]
    {
    }
  }

  lemma LayoutKeepsMid(c: string)
    requires AllAlnum(c) && 4 < |c| <= 7
    ensures KeepAlnum(Layout(c)) == Normalised(c)
  {
    var n := |c|;
    var u := Upper(c[4..n]);
    KeepCodePart(c);
    assert Layout(c) == c[..4] + ("/" + u);
    var r := c[..4] + u;
    forall i | 0 <= i < |r|
      ensures r[i] == Normalised(c)[i]
    {
      if i < 4 {
        assert r[i] == c[i];
      } else {
        assert r[i] == u[i - 4];
      }
    }
  }

  lemma LayoutKeeps(c: string)
    requires AllAlnum(c)
    ensures KeepAlnum(Layout(c)) == Normalised(c)
  {
    if |c| <= 4 {
      LayoutKeepsShort(c);
    } else if |c| <= 7 {
      LayoutKeepsMid(c);
    } else {
      LayoutKeepsLong(c);
    }
  }

  /** The alphanumerics of the output are the first eleven alphanumerics of
      the input, with the code letters upper-cased; nothing else survives. */
  lemma FormatKeepsFirstEleven(value: string)
    ensures KeepAlnum(FormatRegNumber(value)) == Normalised(KeepAlnum(value))
  {
    LayoutKeeps(KeepAlnum(value));
  }

  /** Reformatting an already formatted number changes nothing, so the
      formatter can run on every keystroke. */
  lemma FormatIdempotent(value: string)
    ensures FormatRegNumber(FormatRegNumber(value)) == FormatRegNumber(value)
  {
    var c := KeepAlnum(value);
    var c' := Normalised(c);
    FormatKeepsFirstEleven(value);
    assert KeepAlnum(FormatRegNumber(value)) == c';
    LayoutAt(c);
    LayoutAt(c');
    forall i | 0 <= i < |c| {
      UpperCharKeepsAlnum(c[i]);
    }
    assert Layout(c') == Layout(c);
  }

  /** The formatter produces a number the submit check accepts exactly when
      the first eleven alphanumerics typed are four digits, three letters of
      either case and four digits. */
  lemma FormatMatchesPatternIff(value: string)
    ensures MatchesPattern(FormatRegNumber(value)) <==> WellShaped(KeepAlnum(value))
  {
    var c := KeepAlnum(value);
    var r := FormatRegNumber(value);
    LayoutAt(c);
    forall i | 0 <= i < |c| {
      UpperCharKeepsAlnum(c[i]);
    }
    if MatchesPattern(r) {
      assert |c| >= 11;
      forall i | 4 <= i < 7
        ensures IsLetter(c[i])
      {
        assert IsUpperLetter(r[i + 1]);
      }
      forall i | 7 <= i < 11
        ensures IsDigit(c[i])
      {
        assert IsDigit(r[i + 2]);
      }
    }
    if WellShaped(c) {
      forall i | 5 <= i < 8
        ensures IsUpperLetter(r[i])
      {
        assert IsLetter(c[i - 1]);
      }
      forall i | 9 <= i < 13
        ensures IsDigit(r[i])
      {
        assert IsDigit(c[i - 2]);
      }
    }
  }

  /** A number that passes the pattern is its own canonical form, so grouping
      by `trim().toUpperCase()` leaves submitted numbers as typed. */
  lemma PatternIsCanonical(s: string)
    requires MatchesPattern(s)
    ensures NoSpace(s)
    ensures Trim(s) == s
    ensures Canon(s) == s
  {
    forall i | 0 <= i < |s|
      ensures !IsSpace(s[i]) && UpperChar(s[i]) == s[i]
    {
      assert i < 4 || i == 4 || 5 <= i < 8 || i == 8 || 9 <= i;
    }
    TrimSpec(s);
    var u := Upper(s);
    assert u == s;
  }
}
