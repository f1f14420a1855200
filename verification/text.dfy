/** The Python 2 string operations the core relies on, on the unicode text
    Django hands it: `strip`, `lstrip`, `lower`/`upper` (ASCII letters only),
    `split(sep)`, `"%u" % n` and `int(s)`. */
module Text {
  import opened Wrappers

  type String = seq<char>

  /** The characters Python 2's `unicode.strip()` removes by default: the
      ASCII whitespace (tab to carriage return, space), the information
      separators U+001C..U+001F, and the Unicode spaces and line separators. */
  predicate IsSpace(c: char) {
    c == ' ' || '\t' <= c <= '\r' || '\U{001C}' <= c <= '\U{001F}' ||
    c == '\U{0085}' || c == '\U{00A0}' || c == '\U{1680}' || c == '\U{180E}' ||
    '\U{2000}' <= c <= '\U{200A}' || c == '\U{2028}' || c == '\U{2029}' ||
    c == '\U{202F}' || c == '\U{205F}' || c == '\U{3000}'
  }

  /** `s.lstrip()`: the longest suffix of `s` that does not start with whitespace. */
  function LStrip(s: String): (r: String)
    ensures |r| <= |s| && r == s[|s| - |r|..]
    ensures r == [] || !IsSpace(r[0])
    ensures forall k :: 0 <= k < |s| - |r| ==> IsSpace(s[k])
  {
    if |s| > 0 && IsSpace(s[0]) then LStrip(s[1..]) else s
  }

  /** `s.rstrip()`: the longest prefix of `s` that does not end with whitespace. */
  function RStrip(s: String): (r: String)
    ensures |r| <= |s| && r == s[..|r|]
    ensures r == [] || !IsSpace(r[|r| - 1])
    ensures forall k :: |r| <= k < |s| ==> IsSpace(s[k])
  {
    if |s| > 0 && IsSpace(s[|s| - 1]) then RStrip(s[..|s| - 1]) else s
  }

  /** `s.strip()`: leading whitespace dropped one character at a time, then
      the trailing whitespace of what remains. */
  function Strip(s: String): (r: String)
    ensures r == [] || (!IsSpace(r[0]) && !IsSpace(r[|r| - 1]))
    ensures |r| <= |s|
    ensures (s == [] || (!IsSpace(s[0]) && !IsSpace(s[|s| - 1]))) ==> r == s
    ensures forall c :: c in r ==> c in s
  {
    if s == [] then []
    else if IsSpace(s[0]) then Strip(s[1..])
    else
      var r := RStrip(s);
      assert r != [] ==> r[0] == s[0];
      if !IsSpace(s[|s| - 1]) then RStripKeeps(s); r else r
  }

  lemma LStripKeeps(s: String)
    requires s == [] || !IsSpace(s[0])
    ensures LStrip(s) == s
  {
  }

  lemma RStripKeeps(s: String)
    requires s == [] || !IsSpace(s[|s| - 1])
    ensures RStrip(s) == s
  {
  }

  /** Unicode spaces are stripped too: a no-break space or an ideographic
      space in front of a word goes. */
  lemma StripUnicodeSpace()
    ensures Strip("\U{00A0}a") == "a" && Strip("\U{3000}a") == "a"
  {
    assert "\U{00A0}a"[1..] == "a" && "\U{3000}a"[1..] == "a";
  }

  /** `strip()` is `lstrip()` followed by `rstrip()`. */
  lemma {:induction false} StripIsBothEnds(s: String)
    ensures Strip(s) == RStrip(LStrip(s))
  {
    if s != [] && IsSpace(s[0]) {
      StripIsBothEnds(s[1..]);
    }
  }

  function LowerChar(c: char): char {
    if 'A' <= c <= 'Z' then (c as int + 32) as char else c
  }

  function UpperChar(c: char): char {
    if 'a' <= c <= 'z' then (c as int - 32) as char else c
  }

  /** `s.lower()`, on ASCII letters. */
  function Lower(s: String): (r: String)
    ensures |r| == |s|
  {
    seq(|s|, i requires 0 <= i < |s| => LowerChar(s[i]))
  }

  /** `s.upper()`, on ASCII letters. */
  function Upper(s: String): (r: String)
    ensures |r| == |s|
  {
    seq(|s|, i requires 0 <= i < |s| => UpperChar(s[i]))
  }

  predicate IsUpperChar(c: char) {
    'A' <= c <= 'Z'
  }

  /** A lower-cased string holds no upper-case letter, and lowering is idempotent. */
  lemma LowerHasNoUpper(s: String)
    ensures forall i :: 0 <= i < |Lower(s)| ==> !IsUpperChar(Lower(s)[i])
    ensures Lower(Lower(s)) == Lower(s)
  {
  }

  /** `sep.join(pieces)`. */
  function Join(pieces: seq<String>, sep: char): String
  {
    if |pieces| == 0 then []
    else if |pieces| == 1 then pieces[0]
    else pieces[0] + [sep] + Join(pieces[1..], sep)
  }

  /** `s.split(sep)` with an explicit one-character separator: the maximal
      separator-free pieces between occurrences of `sep`, empty ones kept. */
  function SplitOn(s: String, sep: char): (r: seq<String>)
    ensures |r| >= 1
    ensures forall i :: 0 <= i < |r| ==> sep !in r[i]
    ensures Join(r, sep) == s
  {
    if |s| == 0 then [[]]
    else
      var rest := SplitOn(s[1..], sep);
      if s[0] == sep then [[]] + rest
      else [[s[0]] + rest[0]] + rest[1..]
  }

  /** Splitting undoes joining: the pieces of a split are exactly the
      separator-free pieces the string was joined from. */
  lemma {:induction false} SplitJoin(pieces: seq<String>, sep: char)
    requires |pieces| >= 1
    requires forall i :: 0 <= i < |pieces| ==> sep !in pieces[i]
    ensures SplitOn(Join(pieces, sep), sep) == pieces
    decreases |pieces|, |pieces[0]|
  {
    var p := pieces[0];
    if |pieces| == 1 {
      SplitPiece(p, sep);
    } else if |p| == 0 {
      var s := Join(pieces, sep);
      assert s == [sep] + Join(pieces[1..], sep);
      assert s[1..] == Join(pieces[1..], sep);
      SplitJoin(pieces[1..], sep);
      assert pieces == [[]] + pieces[1..];
    } else {
      var s := Join(pieces, sep);
      var shorter := [p[1..]] + pieces[1..];
      assert shorter[1..] == pieces[1..];
      assert Join(shorter, sep) == p[1..] + [sep] + Join(pieces[1..], sep);
      assert s == [p[0]] + Join(shorter, sep);
      assert s[1..] == Join(shorter, sep);
      assert sep !in shorter[0] by { assert forall k :: 0 <= k < |p[1..]| ==> p[1..][k] == p[k + 1]; }
      SplitJoin(shorter, sep);
      assert [p[0]] + p[1..] == p;
    }
  }

  lemma {:induction false} SplitPiece(p: String, sep: char)
    requires sep !in p
    ensures SplitOn(p, sep) == [p]
    decreases |p|
  {
    if |p| > 0 {
      assert sep !in p[1..] by { assert forall k :: 0 <= k < |p[1..]| ==> p[1..][k] == p[k + 1]; }
      SplitPiece(p[1..], sep);
      assert [p[0]] + p[1..] == p;
    }
  }

  /* ---------------------------------------------------------------------
     Decimal digits: `"%u" % n` / `str(n)` and `int(s)`.
     --------------------------------------------------------------------- */

  predicate IsDigit(c: char) {
    '0' <= c <= '9'
  }

  predicate AllDigits(s: String) {
    forall i :: 0 <= i < |s| ==> IsDigit(s[i])
  }

  function DigitValue(c: char): nat
    requires IsDigit(c)
  {
    c as int - '0' as int
  }

  function DigitChar(d: nat): (c: char)
    requires d < 10
    ensures IsDigit(c) && DigitValue(c) == d
  {
    ('0' as int + d) as char
  }

  /** The number a run of decimal digits denotes, most significant first. */
  function DigitsValue(s: String): nat
    requires AllDigits(s)
  {
    if |s| == 0 then 0
    else DigitsValue(s[..|s| - 1]) * 10 + DigitValue(s[|s| - 1])
  }

  /** A canonical decimal numeral: non-empty, and no leading zero unless it is "0". */
  predicate IsCanonical(s: String) {
    |s| >= 1 && AllDigits(s) && (s[0] == '0' ==> |s| == 1)
  }

  /** `"%u" % n` (equivalently `str(n)`) for a non-negative integer. */
  function Decimal(n: nat): (r: String)
    ensures IsCanonical(r)
    ensures DigitsValue(r) == n
  {
    if n < 10 then [DigitChar(n)]
    else
      var r := Decimal(n / 10) + [DigitChar(n % 10)];
      assert r[..|r| - 1] == Decimal(n / 10);
      r
  }

  /** Reading back a canonical numeral and printing it again gives the same text. */
  lemma {:induction false} DecimalOfDigits(s: String)
    requires IsCanonical(s)
    ensures Decimal(DigitsValue(s)) == s
    decreases |s|
  {
    if |s| == 1 {
    } else {
      var p := s[..|s| - 1];
      assert IsCanonical(p);
      DecimalOfDigits(p);
      DigitsPositive(p);
      var n := DigitsValue(s);
      assert n / 10 == DigitsValue(p) && n % 10 == DigitValue(s[|s| - 1]);
      assert s == p + [s[|s| - 1]];
    }
  }

  /** A canonical numeral of two or more digits denotes at least 10. */
  lemma {:induction false} DigitsPositive(s: String)
    requires IsCanonical(s)
    ensures s[0] != '0' ==> DigitsValue(s) >= 1
    ensures |s| >= 2 ==> DigitsValue(s) >= 10
    decreases |s|
  {
    if |s| >= 2 {
      var p := s[..|s| - 1];
      assert p[0] == s[0];
      DigitsPositive(p);
    }
  }

  /** Python 2's `int(s)` for base 10: surrounding whitespace, an optional
      sign and at least one decimal digit; anything else raises ValueError (None). */
  function ParseInt(s: String): (r: Option<int>)
    ensures r.Some? ==> exists i :: 0 <= i < |s| && IsDigit(s[i])
  {
    var t := Strip(s);
    if |t| >= 2 && (t[0] == '-' || t[0] == '+') && AllDigits(t[1..]) then
      var v: int := DigitsValue(t[1..]);
      assert IsDigit(t[1..][0]) && t[1] in s;
      Some(if t[0] == '-' then -v else v)
    else if |t| >= 1 && AllDigits(t) then
      assert IsDigit(t[0]) && t[0] in s;
      Some(DigitsValue(t))
    else None
  }

  /** `int(str(n)) == n` for every non-negative `n`. */
  lemma ParseDecimal(n: nat)
    ensures ParseInt(Decimal(n)) == Some(n)
  {
    var d := Decimal(n);
    assert IsDigit(d[0]) && IsDigit(d[|d| - 1]);
    assert Strip(d) == d;
  }

  /** A string without any digit is not an integer. */
  lemma ParseIntNeedsDigit(s: String)
    requires forall i :: 0 <= i < |s| ==> !IsDigit(s[i])
    ensures ParseInt(s).None?
  {
  }
}
