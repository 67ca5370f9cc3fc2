/** String helpers with the meaning Python's `str` methods give them in the
    modelled code: `strip`, `lower`, `upper`, `title`, `capitalize`, `replace`
    of one character, `startswith`, the `in` substring test, `join`, `s[-n:]`
    and the decimal rendering of a natural number.

    Case mapping covers ASCII and Latin-1, together with the three letters
    outside Latin-1 that Latin-1 letters map to (`Μ` U+039C, `μ` U+03BC and
    `Ÿ` U+0178). Every other character is left unchanged and counts as
    uncased. The one Latin-1 mapping that yields two characters in Python,
    `ß` to "SS" (upper) or "Ss" (title), is left as `ß`. */
module Text {

  /** The whitespace characters `str.strip()` removes: the characters of
      Unicode category Zs or bidirectional class WS, B or S. */
  predicate IsSpace(c: char) {
    c == ' ' || c == '\t' || c == '\n' || c == '\r' || c == '\U{000B}' || c == '\U{000C}'
    || ('\U{001C}' <= c <= '\U{001F}') || c == '\U{0085}' || c == '\U{00A0}'
    || c == '\U{1680}' || ('\U{2000}' <= c <= '\U{200A}') || c == '\U{2028}' || c == '\U{2029}'
    || c == '\U{202F}' || c == '\U{205F}' || c == '\U{3000}'
  }

  /** `not s.strip()`: the string holds whitespace only (or nothing). */
  predicate IsBlank(s: string) {
    forall i :: 0 <= i < |s| ==> IsSpace(s[i])
  }

  /** Number of whitespace characters at the start of `s`. */
  function LeadingSpaces(s: string): (n: nat)
    ensures n <= |s|
    ensures IsBlank(s[..n])
    ensures n < |s| ==> !IsSpace(s[n])
  {
    if |s| > 0 && IsSpace(s[0]) then
      var n := 1 + LeadingSpaces(s[1..]);
      assert s[..n] == [s[0]] + s[1..][..n - 1];
      n
    else 0
  }

  /** Number of whitespace characters at the end of `s`. */
  function TrailingSpaces(s: string): (n: nat)
    ensures n <= |s|
    ensures IsBlank(s[|s| - n..])
    ensures n < |s| ==> !IsSpace(s[|s| - n - 1])
  {
    if |s| > 0 && IsSpace(s[|s| - 1]) then
      var n := 1 + TrailingSpaces(s[..|s| - 1]);
      assert s[|s| - n..] == s[..|s| - 1][|s| - n..] + [s[|s| - 1]];
      n
    else 0
  }

  /** `s.strip()`: the slice of `s` that neither starts nor ends with
      whitespace; everything cut away on either side is whitespace. */
  function Strip(s: string): (r: string)
    ensures exists i, j :: 0 <= i <= j <= |s| && r == s[i..j] && IsBlank(s[..i]) && IsBlank(s[j..])
    ensures |r| > 0 ==> !IsSpace(r[0]) && !IsSpace(r[|r| - 1])
    ensures r == [] <==> IsBlank(s)
  {
    var i := LeadingSpaces(s);
    var t := TrailingSpaces(s[i..]);
    StripBounds(s, i, t);
    s[i..|s| - t]
  }

  /** What the two counts say about the slice between them. */
  lemma StripBounds(s: string, i: nat, t: nat)
    requires i <= |s| && IsBlank(s[..i]) && (i < |s| ==> !IsSpace(s[i]))
    requires t <= |s| - i && IsBlank(s[i..][|s| - i - t..])
    requires t < |s| - i ==> !IsSpace(s[i..][|s| - i - t - 1])
    ensures IsBlank(s[|s| - t..])
    ensures var r := s[i..|s| - t]; |r| > 0 ==> !IsSpace(r[0]) && !IsSpace(r[|r| - 1])
    ensures s[i..|s| - t] == [] <==> IsBlank(s)
  {
    var j := |s| - t;
    SuffixOfSuffix(s, i, j);
    if j == i {
      BlankHalves(s, i);
    } else {
      var r := s[i..j];
      assert r[0] == s[i] && r[|r| - 1] == s[j - 1];
    }
  }

  lemma SuffixOfSuffix(s: string, i: nat, j: nat)
    requires i <= j <= |s|
    ensures s[i..][j - i..] == s[j..]
    ensures j > i ==> s[i..][j - i - 1] == s[j - 1]
  {
  }

  lemma BlankHalves(s: string, i: nat)
    requires i <= |s| && IsBlank(s[..i]) && IsBlank(s[i..])
    ensures IsBlank(s)
  {
    forall k | 0 <= k < |s| ensures IsSpace(s[k]) {
      if k < i {
        assert s[..i][k] == s[k];
      } else {
        assert s[i..][k - i] == s[k];
      }
    }
  }

  /** A string that `Strip` leaves alone. */
  predicate IsStripped(s: string) {
    |s| > 0 ==> !IsSpace(s[0]) && !IsSpace(s[|s| - 1])
  }

  lemma {:induction false} StripOfStripped(s: string)
    requires IsStripped(s)
    ensures Strip(s) == s
  {
    if |s| > 0 {
      assert LeadingSpaces(s) == 0;
      assert s[0..] == s;
      assert TrailingSpaces(s) == 0;
      assert s[0..|s| - 0] == s;
    }
  }

  // ----- case mapping -------------------------------------------------------

  /** `c.lower()`: ASCII and Latin-1 capitals, and `Μ` and `Ÿ`, whose small
      forms are `μ` and `ÿ`. */
  function LowerChar(c: char): char {
    if 'A' <= c <= 'Z' || ('\U{00C0}' <= c <= '\U{00DE}' && c != '\U{00D7}') then (c as int + 32) as char
    else if c == '\U{039C}' then '\U{03BC}'
    else if c == '\U{0178}' then '\U{00FF}'
    else c
  }

  /** `c.upper()`, which for these characters is also their title case:
      ASCII and Latin-1 small letters, the micro sign `µ` and Greek `μ` (both
      to `Μ`), and `ÿ` (to `Ÿ`). `ß` is left unchanged. */
  function UpperChar(c: char): char {
    if 'a' <= c <= 'z' || ('\U{00E0}' <= c <= '\U{00FE}' && c != '\U{00F7}') then (c as int - 32) as char
    else if c == '\U{00B5}' || c == '\U{03BC}' then '\U{039C}'
    else if c == '\U{00FF}' then '\U{0178}'
    else c
  }

  /** Python's "cased" characters within the table: the letters above and
      the ordinal indicators `ª` and `º`. */
  predicate IsCased(c: char) {
    'A' <= c <= 'Z' || 'a' <= c <= 'z' || c == '\U{00AA}' || c == '\U{00B5}' || c == '\U{00BA}'
    || ('\U{00C0}' <= c <= '\U{00FF}' && c != '\U{00D7}' && c != '\U{00F7}')
    || c == '\U{039C}' || c == '\U{03BC}' || c == '\U{0178}'
  }

  function Lower(s: string): (r: string)
    ensures |r| == |s|
    ensures forall i :: 0 <= i < |s| ==> r[i] == LowerChar(s[i])
  {
    seq(|s|, i requires 0 <= i < |s| => LowerChar(s[i]))
  }

  function Upper(s: string): (r: string)
    ensures |r| == |s|
    ensures forall i :: 0 <= i < |s| ==> r[i] == UpperChar(s[i])
  {
    seq(|s|, i requires 0 <= i < |s| => UpperChar(s[i]))
  }

  /** The micro sign is cased, so the letter after it inside a word stays
      small, and it stays as it is itself. */
  lemma TitleMicroInsideWord()
    ensures Title("a\U{00B5}b") == "A\U{00B5}b"
  {
    var s := "a\U{00B5}b";
    assert IsCased(s[0]) && IsCased(s[1]);
  }

  /** Lower-casing undoes upper-casing, except for the micro sign, whose
      capital `Μ` lower-cases to Greek `μ`. */
  lemma LowerUpperChar(c: char)
    ensures LowerChar(UpperChar(c)) == LowerChar(c) <==> c != '\U{00B5}'
  {
  }

  /** `s.title()`: a cased letter is upper-cased when the character before it
      is not cased, and lower-cased otherwise; other characters are kept. */
  /** `str.title()`: a character is upper-cased at the start and after an
      uncased character, and lower-cased after a cased one. */
  function Title(s: string): (r: string)
    ensures |r| == |s|
    ensures |s| > 0 ==> r[0] == UpperChar(s[0])
    ensures forall i :: 0 < i < |s| ==> r[i] == if IsCased(s[i - 1]) then LowerChar(s[i]) else UpperChar(s[i])
  {
    TitleAfter(s, false)
  }

  function TitleAfter(s: string, prevCased: bool): (r: string)
    ensures |r| == |s|
    ensures forall i :: 0 <= i < |s| ==> r[i] == UpperChar(s[i]) || r[i] == LowerChar(s[i])
    ensures |s| > 0 ==> r[0] == (if prevCased then LowerChar(s[0]) else UpperChar(s[0]))
    ensures forall i :: 0 < i < |s| ==> r[i] == if IsCased(s[i - 1]) then LowerChar(s[i]) else UpperChar(s[i])
  {
    if |s| == 0 then []
    else [if prevCased then LowerChar(s[0]) else UpperChar(s[0])] + TitleAfter(s[1..], IsCased(s[0]))
  }

  /** A word of ASCII lower-case letters after a cased character is kept as it is. */
  lemma {:induction false} TitleAfterLowerWord(s: string)
    requires forall i :: 0 <= i < |s| ==> 'a' <= s[i] <= 'z'
    ensures TitleAfter(s, true) == s
  {
    if |s| > 0 {
      TitleAfterLowerWord(s[1..]);
      assert s == [s[0]] + s[1..];
    }
  }

  /** `title()` of a lower-case ASCII word upper-cases its first letter only. */
  lemma TitleOfLowerWord(s: string)
    requires |s| > 0 && forall i :: 0 <= i < |s| ==> 'a' <= s[i] <= 'z'
    ensures Title(s) == [UpperChar(s[0])] + s[1..]
  {
    TitleAfterLowerWord(s[1..]);
  }

  /** `s.capitalize()`: first character upper-cased, the rest lower-cased. */
  function Capitalize(s: string): (r: string)
    ensures |r| == |s|
    ensures |s| > 0 ==> r[0] == UpperChar(s[0]) && r[1..] == Lower(s[1..])
  {
    if |s| == 0 then [] else [UpperChar(s[0])] + Lower(s[1..])
  }

  // ----- replacement, prefixes, substrings ----------------------------------

  /** `s.replace(a, b)` for one-character `a` and `b`. */
  function ReplaceChar(s: string, a: char, b: char): (r: string)
    ensures |r| == |s|
    ensures forall i :: 0 <= i < |s| ==> r[i] == (if s[i] == a then b else s[i])
  {
    seq(|s|, i requires 0 <= i < |s| => if s[i] == a then b else s[i])
  }

  predicate StartsWith(s: string, prefix: string) {
    |prefix| <= |s| && s[..|prefix|] == prefix
  }

  predicate EndsWith(s: string, suffix: string) {
    |suffix| <= |s| && s[|s| - |suffix|..] == suffix
  }

  /** Python's `sub in s`. */
  predicate Contains(s: string, sub: string)
    decreases |s|
  {
    StartsWith(s, sub) || (|s| > 0 && Contains(s[1..], sub))
  }

  /** `sep.join(parts)`. */
  function Join(parts: seq<string>, sep: string): (r: string)
    ensures |parts| == 0 ==> r == []
    ensures |parts| == 1 ==> r == parts[0]
  {
    if |parts| == 0 then []
    else if |parts| == 1 then parts[0]
    else parts[0] + sep + Join(parts[1..], sep)
  }

  /** Joining one more part adds the separator and the part at the end. */
  lemma {:induction false} JoinAppend(parts: seq<string>, x: string, sep: string)
    requires |parts| > 0
    ensures Join(parts + [x], sep) == Join(parts, sep) + sep + x
  {
    if |parts| == 1 {
      assert (parts + [x])[1..] == [x];
    } else {
      assert (parts + [x])[1..] == parts[1..] + [x];
      JoinAppend(parts[1..], x, sep);
    }
  }

  /** A join ends with its last part. */
  lemma JoinEndsWithLast(parts: seq<string>, sep: string)
    requires |parts| > 0
    ensures EndsWith(Join(parts, sep), parts[|parts| - 1])
  {
    var last := parts[|parts| - 1];
    if |parts| > 1 {
      var init := parts[..|parts| - 1];
      assert init + [last] == parts;
      JoinAppend(init, last, sep);
      var j := Join(init, sep) + sep + last;
      assert j[|j| - |last|..] == last;
    }
  }

  /** Concatenation of all parts (`"".join(parts)`). */
  function Concat(parts: seq<string>): string {
    if |parts| == 0 then [] else parts[0] + Concat(parts[1..])
  }

  lemma {:induction false} ConcatAppend(a: seq<string>, b: seq<string>)
    ensures Concat(a + b) == Concat(a) + Concat(b)
  {
    if |a| == 0 {
      assert a + b == b;
    } else {
      var ab := a + b;
      assert ab[0] == a[0] && ab[1..] == a[1..] + b;
      ConcatAppend(a[1..], b);
      assert Concat(ab) == a[0] + (Concat(a[1..]) + Concat(b));
    }
  }

  /** Python's `xs[-n:]`: the last `min(n, |xs|)` elements, and the whole
      list for `n == 0` (`xs[-0:]` is `xs[0:]`). */
  function LastN<T>(xs: seq<T>, n: nat): (r: seq<T>)
    ensures |r| == if n == 0 || |xs| < n then |xs| else n
    ensures forall i :: 0 <= i < |r| ==> r[i] == xs[|xs| - |r| + i]
  {
    if n == 0 || |xs| <= n then xs else xs[|xs| - n..]
  }

  // ----- decimal rendering --------------------------------------------------

  function DigitChar(d: nat): (c: char)
    requires d < 10
  {
    ('0' as int + d) as char
  }

  /** `str(n)` for a natural number. */
  function NatToString(n: nat): (r: string)
    ensures |r| > 0
    ensures n < 10 <==> |r| == 1
    ensures r[|r| - 1] == DigitChar(n % 10)
    decreases n
  {
    if n < 10 then [DigitChar(n)] else NatToString(n / 10) + [DigitChar(n % 10)]
  }

  /** Distinct numbers have distinct decimal renderings. */
  lemma {:induction false} NatToStringInjective(m: nat, n: nat)
    requires NatToString(m) == NatToString(n)
    ensures m == n
    decreases m
  {
    var sm, sn := NatToString(m), NatToString(n);
    assert m % 10 == n % 10 by {
      assert DigitChar(m % 10) == DigitChar(n % 10);
    }
    if m >= 10 {
      assert n >= 10;
      assert NatToString(m / 10) == sm[..|sm| - 1] == sn[..|sn| - 1] == NatToString(n / 10);
      NatToStringInjective(m / 10, n / 10);
    }
  }
}
