/** The Google Toolbar 3.x/4.x PageRank checksum: a 32-bit multiplicative
    string fold, a bit shuffle of two folds, and a Luhn-style check digit
    prefixed to the decimal form of the hash. The network query that uses
    the checksum is not part of this model. */
module PageRank {
  import opened Text

  /** A character code of the URL, limited to `ord(c) < 256`. Quoting the URL
      raises from code point 128 on, so no checksum is sent for larger ones. */
  type Byte = b: int | 0 <= b < 256

  const Modulus32: int := 0x1_0000_0000

  /** One step of `IntStr`: multiply by the factor, keep the low 32 bits
      (`&= 0xFFFFFFFF`, which on a non-negative integer is `% 2^32`), then
      add the character code. */
  function Step(acc: nat, c: Byte, factor: nat): nat {
    (acc * factor) % Modulus32 + c
  }

  /** `IntStr(String, Integer, Factor)`: a left fold of `Step` over the string.
      The mask comes before the add, so every non-initial value is at most
      `0xFFFFFFFF + 255`. */
  function IntStr(s: seq<Byte>, init: nat, factor: nat): (r: nat)
    ensures |s| == 0 ==> r == init
    ensures |s| > 0 ==> r <= 0xFFFF_FFFF + 255
  {
    if |s| == 0 then init
    else Step(IntStr(s[..|s| - 1], init, factor), s[|s| - 1], factor)
  }

  /** Folding a concatenation is folding the second part from where the first stopped. */
  lemma {:induction false} IntStrAppend(s: seq<Byte>, t: seq<Byte>, init: nat, factor: nat)
    ensures IntStr(s + t, init, factor) == IntStr(t, IntStr(s, init, factor), factor)
    decreases |t|
  {
    if |t| == 0 {
      assert s + t == s;
    } else {
      var t' := t[..|t| - 1];
      assert (s + t)[..|s + t| - 1] == s + t';
      IntStrAppend(s, t', init, factor);
    }
  }

  /** The loop of the source, character by character from the left; it
      computes the fold and every intermediate value stays within the bound. */
  method IntStrLoop(s: seq<Byte>, init: nat, factor: nat) returns (r: nat)
    ensures r == IntStr(s, init, factor)
    ensures |s| > 0 ==> r <= 0xFFFF_FFFF + 255
  {
    r := init;
    var i := 0;
    while i < |s|
      invariant 0 <= i <= |s|
      invariant r == IntStr(s[..i], init, factor)
    {
      assert s[..i + 1][..i] == s[..i];
      r := (r * factor) % Modulus32;
      r := r + s[i];
      i := i + 1;
    }
    assert s[..i] == s;
  }

  /* ---------------------------------------------------------------------
     HashURL: the bit shuffle. Both folds are below 2^33, so 64-bit vectors
     hold every intermediate value of the Python arbitrary-precision code.
     --------------------------------------------------------------------- */

  /** C1 after `C1 >>= 2` and the three nibble-compacting steps: at most 18 bits remain. */
  function Compact(c1: bv64): (c: bv64)
    ensures c < 0x4_0000
  {
    var a := c1 >> 2;
    var b := ((a >> 4) & 0x3FF_FFC0) | (a & 0x3F);
    var d := ((b >> 4) & 0x3F_FC00) | (b & 0x3FF);
    ((d >> 4) & 0x3_C000) | (d & 0x3FFF)
  }

  /** T1: C1 bits moved into nibbles 1 and 3, C2's nibbles 0 and 2; fits in 16 bits. */
  function Low(c: bv64, c2: bv64): (t1: bv64)
    ensures t1 < 0x1_0000
    ensures t1 & 0x0F0F == c2 & 0x0F0F
  {
    ((((c & 0x3C0) << 4) | (c & 0x3C)) << 2) | (c2 & 0xF0F)
  }

  /** T2: C1 bits moved into nibbles 5 and 7, C2's nibbles 4 and 6; no bit below 16. */
  function High(c: bv64, c2: bv64): (t2: bv64)
    requires c < 0x4_0000
    ensures t2 & 0xFFFF == 0
    ensures t2 < 0x1_0000_0000
    ensures t2 & 0x0F0F_0000 == c2 & 0x0F0F_0000
  {
    ((((c & 0xFFFF_C000) << 4) | (c & 0x3C00)) << 0xA) | (c2 & 0xF0F_0000)
  }

  /** The two folds of `HashURL`. */
  function C1(s: seq<Byte>): nat {
    IntStr(s, 0x1505, 0x21)
  }

  function C2(s: seq<Byte>): nat {
    IntStr(s, 0, 0x1_003F)
  }

  /** The shuffle of `HashURL` on the two folds: T1 | T2. */
  function Mix(c1: bv64, c2: bv64): bv64 {
    var c := Compact(c1);
    Low(c, c2) | High(c, c2)
  }

  /** The shuffle yields a 32-bit value whose `0x0F0F0F0F` nibbles are C2's;
      C1 contributes only to the other nibbles. */
  lemma MixNibbles(c1: bv64, c2: bv64, h: bv64)
    requires h == Mix(c1, c2)
    ensures h < 0x1_0000_0000
    ensures h & 0x0F0F_0F0F == c2 & 0x0F0F_0F0F
  {
    var c := Compact(c1);
    var t1 := Low(c, c2);
    var t2 := High(c, c2);
    assert t1 < 0x1_0000 && t1 & 0x0F0F == c2 & 0x0F0F;
    assert t2 & 0xFFFF == 0 && t2 < 0x1_0000_0000 && t2 & 0x0F0F_0000 == c2 & 0x0F0F_0000;
    Nibbles(t1, t2, c2);
  }

  lemma Nibbles(t1: bv64, t2: bv64, c2: bv64)
    requires t1 < 0x1_0000 && t1 & 0x0F0F == c2 & 0x0F0F
    requires t2 & 0xFFFF == 0 && t2 < 0x1_0000_0000 && t2 & 0x0F0F_0000 == c2 & 0x0F0F_0000
    ensures t1 | t2 < 0x1_0000_0000
    ensures (t1 | t2) & 0x0F0F_0F0F == c2 & 0x0F0F_0F0F
  {
  }

  /** A fold value as a 64-bit vector; folds never exceed 2^33. */
  function Wide(n: nat): bv64
    requires n < 0x1_0000_0000_0000_0000
  {
    n as bv64
  }

  /** `HashURL(Str)`. */
  function HashURL(s: seq<Byte>): (h: bv64)
    ensures h < 0x1_0000_0000
    ensures h & 0x0F0F_0F0F == Wide(C2(s)) & 0x0F0F_0F0F
  {
    var h := Mix(Wide(C1(s)), Wide(C2(s)));
    MixNibbles(Wide(C1(s)), Wide(C2(s)), h);
    h
  }

  /** The hash as the Python integer `CheckHash` receives. It fits in 32 bits,
      so it is read through a 32-bit vector. */
  function HashValue(s: seq<Byte>): (n: nat)
    ensures n < 0x1_0000_0000
  {
    (HashURL(s) as bv32) as int
  }

  /* ---------------------------------------------------------------------
     CheckHash: the Luhn-style check digit.
     --------------------------------------------------------------------- */

  /** What a digit contributes when `flag` digits stand to its right: every
      second digit from the right, starting with the second, is doubled and
      replaced by the sum of the two decimal digits of the double. */
  function Weight(d: nat, flag: nat): nat
    requires d < 10
  {
    if flag % 2 == 1 then (d * 2) / 10 + (d * 2) % 10 else d
  }

  /** The weighted digit sum of a numeral; the leftmost digit has `|ds| - 1` digits to its right. */
  function LuhnSum(ds: String): nat
    requires AllDigits(ds)
  {
    if |ds| == 0 then 0
    else Weight(DigitValue(ds[0]), |ds| - 1) + LuhnSum(ds[1..])
  }

  /** The check digit: the one digit that, written in front of the numeral,
      makes its weighted digit sum a multiple of ten (see `CheckDigitValid`). */
  function CheckDigit(ds: String): (c: nat)
    requires AllDigits(ds)
    ensures c < 10
    ensures |ds| % 2 == 0 ==> c == (10 - LuhnSum(ds) % 10) % 10
  {
    var rest := LuhnSum(ds) % 10;
    if rest == 0 then 0
    else
      var c := 10 - rest;
      if |ds| % 2 == 1 then (if c % 2 == 1 then c + 9 else c) / 2 else c
  }

  /** The remainder modulo ten of `10 * q + y` for a digit `y` is `y`. */
  lemma ModUnique(x: int, q: int, y: int)
    requires x == 10 * q + y && 0 <= y < 10
    ensures x % 10 == y
  {
  }

  /** A doubled digit below 5 contributes its double; from 5 on, the double less 9. */
  lemma WeightDigit(d: nat, flag: nat)
    requires d < 10
    ensures flag % 2 == 0 ==> Weight(d, flag) == d
    ensures flag % 2 == 1 ==> Weight(d, flag) == if d < 5 then 2 * d else 2 * d - 9
    ensures Weight(d, flag) < 10
  {
    if flag % 2 == 1 {
      if d < 5 {
        ModUnique(d * 2, 0, d * 2);
        assert (d * 2) / 10 == 0;
      } else {
        ModUnique(d * 2, 1, d * 2 - 10);
        assert (d * 2) / 10 == 1;
      }
    }
  }

  /** Doubling-and-digit-summing permutes 0..9, so it is injective modulo ten. */
  lemma WeightInjective(d: nat, e: nat, flag: nat)
    requires d < 10 && e < 10
    requires Weight(d, flag) % 10 == Weight(e, flag) % 10
    ensures d == e
  {
    WeightDigit(d, flag);
    WeightDigit(e, flag);
    ModUnique(Weight(d, flag), 0, Weight(d, flag));
    ModUnique(Weight(e, flag), 0, Weight(e, flag));
  }

  /** In front of the numeral the check digit contributes exactly what the
      weighted sum lacks to reach the next multiple of ten. */
  lemma CheckDigitWeight(ds: String)
    requires AllDigits(ds)
    ensures Weight(CheckDigit(ds), |ds|) == (10 - LuhnSum(ds) % 10) % 10
  {
    var rest := LuhnSum(ds) % 10;
    var c := CheckDigit(ds);
    WeightDigit(c, |ds|);
    if rest == 0 {
      assert c == 0;
      ModUnique(10, 1, 0);
    } else {
      ModUnique(10 - rest, 0, 10 - rest);
      if |ds| % 2 == 0 {
        assert c == 10 - rest;
      } else if (10 - rest) % 2 == 1 {
        assert c == (19 - rest) / 2;
        assert 2 * c == 19 - rest;
      } else {
        assert c == (10 - rest) / 2;
        assert 2 * c == 10 - rest;
      }
    }
  }

  /** Putting a digit in front adds its weight at position `|ds|`. */
  lemma LuhnPrepend(x: char, ds: String)
    requires IsDigit(x) && AllDigits(ds)
    ensures AllDigits([x] + ds)
    ensures LuhnSum([x] + ds) == Weight(DigitValue(x), |ds|) + LuhnSum(ds)
  {
    assert ([x] + ds)[1..] == ds;
  }

  /** Written in front of the numeral, the check digit completes a weighted
      digit sum divisible by ten, and no other digit does. */
  lemma CheckDigitValid(ds: String, d: nat)
    requires AllDigits(ds) && d < 10
    ensures AllDigits([DigitChar(d)] + ds)
    ensures LuhnSum([DigitChar(d)] + ds) % 10 == 0 <==> d == CheckDigit(ds)
  {
    LuhnPrepend(DigitChar(d), ds);
    var sum := LuhnSum(ds);
    var c := CheckDigit(ds);
    var w := Weight(d, |ds|);
    CheckDigitWeight(ds);
    WeightDigit(d, |ds|);
    WeightDigit(c, |ds|);
    ModComplement(sum, w);
    if d != c {
      assert w != Weight(c, |ds|) by {
        if w == Weight(c, |ds|) {
          ModUnique(w, 0, w);
          WeightInjective(d, c, |ds|);
        }
      }
    }
  }

  /** A digit completes a sum to a multiple of ten exactly when it is the sum's complement. */
  lemma ModComplement(sum: nat, w: nat)
    requires w < 10
    ensures (w + sum) % 10 == 0 <==> w == (10 - sum % 10) % 10
  {
    var q, r := sum / 10, sum % 10;
    assert sum == 10 * q + r;
    if r == 0 {
      ModUnique(w + sum, q, w);
      ModUnique(10, 1, 0);
    } else {
      ModUnique(10 - r, 0, 10 - r);
      if w + r < 10 {
        ModUnique(w + sum, q, w + r);
      } else {
        ModUnique(w + sum, q + 1, w + r - 10);
      }
    }
  }

  /** The weighted sum of a suffix: its first digit has `|ds| - 1 - i` digits to its right. */
  lemma LuhnSuffix(ds: String, i: int)
    requires AllDigits(ds) && 0 <= i < |ds|
    ensures LuhnSum(ds[i..]) == Weight(DigitValue(ds[i]), |ds| - 1 - i) + LuhnSum(ds[i + 1..])
  {
    assert ds[i..][0] == ds[i];
    assert ds[i..][1..] == ds[i + 1..];
  }

  /** The checksum text for a numeral and its check digit. */
  lemma ChecksumText(ds: String, c: nat, r: String)
    requires AllDigits(ds) && c == CheckDigit(ds)
    requires r == ['7', DigitChar(c)] + ds
    ensures |r| == |ds| + 2
    ensures r[0] == '7' && IsDigit(r[1]) && r[2..] == ds
    ensures DigitValue(r[1]) == c
    ensures AllDigits(r) && LuhnSum(r[1..]) % 10 == 0
  {
    CheckDigitValid(ds, c);
    assert r[1..] == [DigitChar(c)] + ds;
    assert r[2..] == ds;
  }

  /** `CheckHash(HashInt)`: `'7'`, the check digit, then `"%u" % HashInt`
      unchanged. */
  method CheckHash(hash: nat) returns (r: String)
    ensures |r| == |Decimal(hash)| + 2
    ensures r[0] == '7' && IsDigit(r[1]) && r[2..] == Decimal(hash)
    ensures DigitValue(r[1]) == CheckDigit(Decimal(hash))
    ensures AllDigits(r) && LuhnSum(r[1..]) % 10 == 0
  {
    var hashStr := Decimal(hash);
    var checkByte, flag := WeightedSum(hashStr);
    checkByte := checkByte % 10;
    if checkByte != 0 {
      checkByte := 10 - checkByte;
      if flag % 2 == 1 {
        if checkByte % 2 == 1 {
          checkByte := checkByte + 9;
        }
        checkByte := checkByte / 2;
      }
    }
    assert checkByte == CheckDigit(hashStr);
    r := ['7', DigitChar(checkByte)] + hashStr;
    ChecksumText(hashStr, checkByte, r);
  }

  /** The loop of `CheckHash`: the digits right to left, every second one
      from the right (starting with the second) doubled and folded to one
      digit; `flag` ends as the number of digits. */
  method WeightedSum(hashStr: String) returns (sum: nat, flag: nat)
    requires AllDigits(hashStr)
    ensures sum == LuhnSum(hashStr) && flag == |hashStr|
  {
    flag := 0;
    sum := 0;
    var i := |hashStr| - 1;
    while i >= 0
      invariant -1 <= i < |hashStr|
      invariant flag == |hashStr| - 1 - i
      invariant sum == LuhnSum(hashStr[i + 1..])
    {
      var b := DigitValue(hashStr[i]);
      ghost var w := Weight(b, flag);
      LuhnSuffix(hashStr, i);
      if flag % 2 == 1 {
        b := b * 2;
        b := b / 10 + b % 10;
      }
      assert b == w;
      sum := sum + b;
      flag := flag + 1;
      i := i - 1;
    }
    assert hashStr[0..] == hashStr;
  }

  function Pow10(k: nat): nat {
    if k == 0 then 1 else 10 * Pow10(k - 1)
  }

  /** A number below 10^k prints in at most k digits (k >= 1). */
  lemma {:induction false} DecimalLength(n: nat, k: nat)
    requires k >= 1 && n < Pow10(k)
    ensures |Decimal(n)| <= k
  {
    if n >= 10 {
      DecimalLength(n / 10, k - 1);
    }
  }

  /** A 32-bit value prints in at most ten digits. */
  lemma TenDigits(n: nat)
    requires n < 0x1_0000_0000
    ensures |Decimal(n)| <= 10
  {
    assert Pow10(10) == 10_000_000_000;
    DecimalLength(n, 10);
  }

  /** The checksum sent for a URL: `CheckHash(HashURL(url))`. The hash is a
      32-bit value, so the checksum has at most twelve characters. */
  method UrlChecksum(url: seq<Byte>) returns (r: String)
    ensures 3 <= |r| <= 12 && r[0] == '7'
    ensures r[2..] == Decimal(HashValue(url))
  {
    r := CheckHash32(HashValue(url));
  }

  /** `CheckHash` on a value below 2^32: at most ten digits follow the
      leading `'7'` and the check digit. */
  method CheckHash32(h: nat) returns (r: String)
    requires h < 0x1_0000_0000
    ensures 3 <= |r| <= 12 && r[0] == '7'
    ensures r[2..] == Decimal(h)
  {
    r := CheckHash(h);
    TenDigits(h);
  }
}
