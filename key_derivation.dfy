/**
 * Key derivation of ImageUtils.url2Key: the cache key of a URL is the decimal
 * text (Integer.toString) of the URL's java.lang.String.hashCode().
 *
 * A Java String is a sequence of UTF-16 code units; `int` is 32-bit two's
 * complement and wraps around silently. Both are written out here.
 */
module KeyDerivation {

  /** A UTF-16 code unit (a Java `char`). */
  type CodeUnit = c: int | 0 <= c < 0x1_0000

  /** A URL as Java holds it: a String, i.e. a sequence of code units. */
  type Url = seq<CodeUnit>

  const TwoTo31: int := 0x8000_0000
  const TwoTo32: int := 0x1_0000_0000

  /** The values of a Java `int`. */
  type Int32 = x: int | -0x8000_0000 <= x < 0x8000_0000

  /**
   * The `int` that Java arithmetic produces for the mathematical value x:
   * the unique 32-bit value congruent to x modulo 2^32.
   */
  function ToInt32(x: int): (r: Int32)
    ensures (x - r) % TwoTo32 == 0
  {
    var m := x % TwoTo32;
    if m < TwoTo31 then m else m - TwoTo32
  }

  /** Values that agree modulo 2^32 wrap to the same `int`. */
  lemma ToInt32Congruent(x: int, y: int)
    requires (x - y) % TwoTo32 == 0
    ensures ToInt32(x) == ToInt32(y)
  {
  }

  function Pow(b: int, e: nat): int
  {
    if e == 0 then 1 else b * Pow(b, e - 1)
  }

  /** The documented value s[0]*31^(n-1) + s[1]*31^(n-2) + ... + s[n-1], unbounded. */
  function Polynomial(s: Url): int
  {
    if s == [] then 0 else s[0] * Pow(31, |s| - 1) + Polynomial(s[1..])
  }

  /** Appending a code unit is one Horner step of the polynomial. */
  lemma {:induction false} PolynomialSnoc(s: Url, c: CodeUnit)
    ensures Polynomial(s + [c]) == 31 * Polynomial(s) + c
  {
    if s == [] {
      assert [] + [c] == [c];
    } else {
      var t := s + [c];
      assert t[0] == s[0] && t[1..] == s[1..] + [c];
      PolynomialSnoc(s[1..], c);
      var p := Pow(31, |s| - 1);
      assert Pow(31, |s|) == 31 * p;
      assert s[0] * (31 * p) == 31 * (s[0] * p);
    }
  }

  /** One Horner step in `int` arithmetic agrees, after wrapping, with the unbounded step. */
  lemma HornerStepWraps(h: int, p: int, c: int)
    requires (p - h) % TwoTo32 == 0
    ensures ToInt32(ToInt32(31 * h) + c) == ToInt32(31 * p + c)
  {
    var m := ToInt32(31 * h);
    var a := (31 * h - m) / TwoTo32;
    var b := (p - h) / TwoTo32;
    assert 31 * h - m == a * TwoTo32;
    assert p - h == b * TwoTo32;
    assert (31 * p + c) - (m + c) == (a + 31 * b) * TwoTo32;
    ToInt32Congruent(31 * p + c, m + c);
  }

  /**
   * String.hashCode(): the Horner fold h := 31 * h + s[i] over the code units,
   * from h = 0, where the product and the sum are each `int` operations. The
   * hash computed with wrap-around at every step is the documented polynomial
   * reduced once to 32 bits.
   */
  function HashCode(s: Url): (h: Int32)
    ensures h == ToInt32(Polynomial(s))
  {
    if s == [] then 0
    else
      var p, c := s[..|s| - 1], s[|s| - 1];
      assert s == p + [c];
      PolynomialSnoc(p, c);
      HornerStepWraps(HashCode(p), Polynomial(p), c);
      ToInt32(ToInt32(31 * HashCode(p)) + c)
  }

  predicate IsDigit(ch: char)
  {
    '0' <= ch <= '9'
  }

  function DigitChar(d: nat): (ch: char)
    requires d < 10
    ensures IsDigit(ch)
    ensures ch == '0' <==> d == 0
  {
    ('0' as int + d) as char
  }

  function DigitValue(ch: char): (d: nat)
    requires IsDigit(ch)
    ensures d < 10 && DigitChar(d) == ch
  {
    ch as int - '0' as int
  }

  /** The decimal digits of n, most significant first, without leading zeros. */
  function NatToDecimal(n: nat): (r: string)
    ensures r != [] && forall i :: 0 <= i < |r| ==> IsDigit(r[i])
    ensures r[0] == '0' <==> n == 0
    ensures r[0] == '0' ==> |r| == 1
  {
    if n < 10 then [DigitChar(n)] else NatToDecimal(n / 10) + [DigitChar(n % 10)]
  }

  /** Integer.toString(i), which String.valueOf(int) returns: a '-' for a negative value, then the digits of its magnitude. */
  function Int32ToDecimal(i: Int32): (r: string)
    ensures r != [] && (r[0] == '-' <==> i < 0)
    ensures forall k :: (if i < 0 then 1 else 0) <= k < |r| ==> IsDigit(r[k])
    ensures i < 0 ==> |r| >= 2
  {
    if i < 0 then "-" + NatToDecimal(-(i as int)) else NatToDecimal(i)
  }

  /** The value of a string of decimal digits (the parsing partner of NatToDecimal). */
  function DecimalValue(s: string): nat
    requires forall i :: 0 <= i < |s| ==> IsDigit(s[i])
  {
    if s == [] then 0 else 10 * DecimalValue(s[..|s| - 1]) + DigitValue(s[|s| - 1])
  }

  /** Integer.parseInt on the texts Int32ToDecimal produces. */
  function ParseDecimal(s: string): int
    requires s != []
    requires forall k :: (if s[0] == '-' then 1 else 0) <= k < |s| ==> IsDigit(s[k])
  {
    if s[0] == '-' then -(DecimalValue(s[1..]) as int) else DecimalValue(s)
  }

  lemma {:induction false} NatToDecimalRoundTrip(n: nat)
    ensures DecimalValue(NatToDecimal(n)) == n
  {
    var r := NatToDecimal(n);
    if n >= 10 {
      NatToDecimalRoundTrip(n / 10);
      assert r[..|r| - 1] == NatToDecimal(n / 10);
    }
  }

  /** Parsing the rendered text gives back the number: the rendering loses nothing. */
  lemma Int32ToDecimalRoundTrip(i: Int32)
    ensures ParseDecimal(Int32ToDecimal(i)) == i
  {
    var r := Int32ToDecimal(i);
    if i < 0 {
      NatToDecimalRoundTrip(-(i as int));
      assert r[1..] == NatToDecimal(-(i as int));
    } else {
      NatToDecimalRoundTrip(i);
    }
  }

  /** A number below 10^k has at most k digits. */
  lemma {:induction false} NatToDecimalLength(n: nat, k: nat)
    requires 1 <= k && n < Pow(10, k)
    ensures |NatToDecimal(n)| <= k
  {
    if n >= 10 {
      assert k >= 2;
      NatToDecimalLength(n / 10, k - 1);
    }
  }

  /**
   * ImageUtils.url2Key: a key that is a sign and at most ten digits, and that
   * denotes the URL's hash.
   */
  function Url2Key(url: Url): (key: string)
    ensures IsKeyText(key) && 1 <= |key| <= 11
    ensures ParseDecimal(key) == HashCode(url)
  {
    Int32ToDecimalLength(HashCode(url));
    Int32ToDecimalRoundTrip(HashCode(url));
    Int32ToDecimal(HashCode(url))
  }

  /**
   * A key is one optional leading '-' followed by one or more ASCII digits, with
   * no leading zero; the '-' is present exactly when the hash is negative.
   */
  predicate IsKeyText(key: string)
  {
    var start := if key != [] && key[0] == '-' then 1 else 0;
    start < |key| &&
    (forall k :: start <= k < |key| ==> IsDigit(key[k])) &&
    (key[start] == '0' ==> |key| == start + 1) &&
    (start == 1 ==> key[1] != '0')
  }

  /** The key is the decimal rendering of the documented hash polynomial wrapped to 32 bits. */
  lemma KeyIsRenderedHash(url: Url)
    ensures Url2Key(url) == Int32ToDecimal(ToInt32(Polynomial(url)))
    ensures ParseDecimal(Url2Key(url)) == ToInt32(Polynomial(url))
    ensures ParseDecimal(Url2Key(url)) == HashCode(url)
  {
    Int32ToDecimalRoundTrip(HashCode(url));
  }

  /** The text of an `int` has at most 11 characters: a sign and ten digits. */
  lemma Int32ToDecimalLength(i: Int32)
    ensures |Int32ToDecimal(i)| <= 11
  {
    var m: nat := if i < 0 then -(i as int) else i;
    assert Pow(10, 10) == 10000000000;
    NatToDecimalLength(m, 10);
  }

  /**
   * The key is a plain file name: digits with at most one leading '-', at most
   * 11 characters, never empty, "." or "..", and without a path separator. So
   * new File(cacheDir, key) always names a direct child of cacheDir.
   */
  lemma KeyIsFileName(url: Url)
    ensures IsKeyText(Url2Key(url))
    ensures 1 <= |Url2Key(url)| <= 11
    ensures Url2Key(url) != "." && Url2Key(url) != ".."
    ensures '/' !in Url2Key(url) && '\\' !in Url2Key(url)
  {
    var key := Url2Key(url);
    assert forall k :: 0 <= k < |key| ==> key[k] == '-' || IsDigit(key[k]);
  }

  /** Two URLs share a key exactly when their 32-bit hashes are equal. */
  lemma KeysEqualIffHashesEqual(u: Url, v: Url)
    ensures Url2Key(u) == Url2Key(v) <==> HashCode(u) == HashCode(v)
  {
    if Url2Key(u) == Url2Key(v) {
      Int32ToDecimalRoundTrip(HashCode(u));
      Int32ToDecimalRoundTrip(HashCode(v));
    }
  }

  /**
   * Distinct URLs can share a key: "Aa" and "BB" both hash to 2112, so a
   * cache keyed this way can serve one URL's image for the other.
   */
  lemma KeyCollision(aa: Url, bb: Url)
    requires aa == [65, 97] && bb == [66, 66]
    ensures aa != bb && Url2Key(aa) == Url2Key(bb) == "2112"
  {
    assert aa[..1] == [65] && bb[..1] == [66];
    assert HashCode([65]) == 65 && HashCode([66]) == 66;
    assert HashCode(aa) == 2112 && HashCode(bb) == 2112;
    assert NatToDecimal(2112) == "2112" by {
      assert NatToDecimal(2) == "2";
      assert NatToDecimal(21) == "21";
      assert NatToDecimal(211) == "211";
    }
  }
}
