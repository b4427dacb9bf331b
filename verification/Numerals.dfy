/** Decimal and hexadecimal text, in both directions (utils.c, and the printf/strtol calls of the codec). */
module Numerals {
  import opened Bytes

  predicate IsDigit(b: byte) {
    0x30 <= b <= 0x39
  }

  predicate IsXdigit(b: byte) {
    IsDigit(b) || 0x41 <= b <= 0x46 || 0x61 <= b <= 0x66
  }

  // ----- decimal

  /** `%u` */
  function PrintDec(n: nat): seq<byte> {
    if n < 10 then [0x30 + n] else PrintDec(n / 10) + [0x30 + n % 10]
  }

  /** `strtol(..., 10)` on a run of digits */
  function ParseDec(s: seq<byte>): nat {
    if s == [] then 0
    else 10 * ParseDec(s[..|s| - 1]) + if IsDigit(s[|s| - 1]) then s[|s| - 1] - 0x30 else 0
  }

  lemma {:induction false} DecRoundTrip(n: nat)
    ensures ParseDec(PrintDec(n)) == n
    ensures PrintDec(n) != [] && forall b | b in PrintDec(n) :: IsDigit(b)
  {
    if n >= 10 {
      DecRoundTrip(n / 10);
      assert PrintDec(n)[..|PrintDec(n)| - 1] == PrintDec(n / 10);
    } else {
      assert [0x30 + n][..0] == [];
    }
  }

  /** A number below 10^k takes at most k digits. */
  lemma {:induction false} DecLength(n: nat, k: nat, bound: nat)
    requires n < bound && bound == Pow10(k) && k > 0
    ensures |PrintDec(n)| <= k
    decreases k
  {
    if n >= 10 {
      DecLength(n / 10, k - 1, Pow10(k - 1));
    }
  }

  function Pow10(k: nat): nat {
    if k == 0 then 1 else 10 * Pow10(k - 1)
  }

  lemma DivTwice(n: nat, base: nat, p: nat)
    requires base in {10, 16} && p > 0
    ensures n / base / p == n / (base * p)
  {
    var q := n / base;
    var a, b := q / p, q % p;
    ghost var whole := a * p;
    assert q == whole + b;
    assert n == base * whole + (base * b + n % base) && base * b + n % base < base * p;
    Scaled(base, a, p);
    QuotientIs(n, base * p, a, base * b + n % base);
  }

  lemma Scaled(x: nat, y: nat, z: nat)
    ensures y * (x * z) == x * (y * z)
  {
  }

  lemma QuotientIs(n: nat, d: nat, a: nat, r: nat)
    requires d > 0 && n == a * d + r && r < d
    ensures n / d == a
  {
    var q, m := n / d, n % d;
    assert (q - a) * d == r - m;
    Multiple(q - a, d);
    Multiple(a - q, d);
    assert (a - q) * d == m - r;
  }

  lemma Multiple(x: int, y: nat)
    ensures x > 0 ==> x * y >= y
  {
  }

  /** The i-th digit from the right stands for its power of ten, */
  lemma {:induction false} DecPlaces(n: nat, i: nat)
    requires i < |PrintDec(n)|
    ensures Pow10(i) > 0 && PrintDec(n)[|PrintDec(n)| - 1 - i] == 0x30 + n / Pow10(i) % 10
    decreases n
  {
    if i > 0 {
      var before := PrintDec(n / 10);
      DecPlaces(n / 10, i - 1);
      assert PrintDec(n)[|before| - i] == before[|before| - 1 - (i - 1)];
      Shifted(n, 10, Pow10(i - 1), Pow10(i));
    }
  }

  lemma Shifted(n: nat, base: nat, p: nat, q: nat)
    requires base in {10, 16} && p > 0 && q == base * p
    ensures q > 0 && n / base / p == n / q
  {
    DivTwice(n, base, p);
  }

  /** and none is in front that could be left out. */
  lemma {:induction false} NoLeadingZero(n: nat)
    requires n > 0
    ensures PrintDec(n)[0] != 0x30 && PrintHex(n)[0] != 0x30
    decreases n
  {
    if n >= 10 {
      NoLeadingZero(n / 10);
    }
    if n >= 16 {
      NoLeadingZero(n / 16);
    }
  }

  // ----- hexadecimal

  /** `%X`, one digit */
  function HexDigit(d: int): byte
    requires 0 <= d < 16
  {
    if d < 10 then 0x30 + d else 0x41 + d - 10
  }

  /** `hex2nibble`; anything but a hexadecimal digit is 0. */
  function Hex2Nibble(h: byte): (r: int)
    ensures 0 <= r < 16
  {
    if 0x41 <= h <= 0x46 then h - 0x41 + 10
    else if 0x61 <= h <= 0x66 then h - 0x61 + 10
    else if IsDigit(h) then h - 0x30
    else 0
  }

  /** `unhex`: the shift and the bitwise or of two nibbles. */
  function Unhex(h: byte, l: byte): byte {
    Hex2Nibble(h) * 16 + Hex2Nibble(l)
  }

  lemma NibbleRoundTrip(d: int)
    requires 0 <= d < 16
    ensures Hex2Nibble(HexDigit(d)) == d && IsXdigit(HexDigit(d))
  {
  }

  /** `%X` */
  function PrintHex(n: nat): seq<byte> {
    if n < 16 then [HexDigit(n)] else PrintHex(n / 16) + [HexDigit(n % 16)]
  }

  /** `strtoul(..., 16)` on a run of hexadecimal digits */
  function ParseHex(s: seq<byte>): nat {
    if s == [] then 0 else 16 * ParseHex(s[..|s| - 1]) + Hex2Nibble(s[|s| - 1])
  }

  lemma {:induction false} HexRoundTrip(n: nat)
    ensures ParseHex(PrintHex(n)) == n
    ensures PrintHex(n) != [] && forall b | b in PrintHex(n) :: IsXdigit(b)
  {
    NibbleRoundTrip(n % 16);
    if n >= 16 {
      HexRoundTrip(n / 16);
      assert PrintHex(n)[..|PrintHex(n)| - 1] == PrintHex(n / 16);
    } else {
      assert [HexDigit(n)][..0] == [];
    }
  }

  /** `%x` */
  function PrintLower(n: nat): seq<byte> {
    if n < 16 then [LowerDigit(n)] else PrintLower(n / 16) + [LowerDigit(n % 16)]
  }

  function LowerDigit(d: int): byte
    requires 0 <= d < 16
  {
    if d < 10 then 0x30 + d else 0x61 + d - 10
  }

  /** Lower-case digits read back as well. */
  lemma {:induction false} LowerRoundTrip(n: nat)
    ensures ParseHex(PrintLower(n)) == n && |PrintLower(n)| == |PrintHex(n)|
    ensures PrintLower(n) != [] && forall b | b in PrintLower(n) :: IsXdigit(b)
  {
    if n >= 16 {
      LowerRoundTrip(n / 16);
      assert PrintLower(n)[..|PrintLower(n)| - 1] == PrintLower(n / 16);
    } else {
      assert [LowerDigit(n)][..0] == [];
    }
  }

  /** A hexadecimal letter and the same in the other case. */
  predicate SameDigit(a: byte, b: byte) {
    a == b || (0x41 <= a <= 0x46 && b == a + 0x20) || (0x61 <= a <= 0x66 && b == a - 0x20)
  }

  predicate SameDigits(s: seq<byte>, t: seq<byte>) {
    |s| == |t| && forall k | 0 <= k < |s| :: SameDigit(s[k], t[k])
  }

  /** The case of the letters makes no difference, to a number or to bytes. */
  lemma {:induction false} CaseIsIgnored(s: seq<byte>, t: seq<byte>)
    requires SameDigits(s, t)
    ensures ParseHex(s) == ParseHex(t)
    decreases |s|
  {
    if s != [] {
      var n := |s| - 1;
      assert SameDigits(s[..n], t[..n]);
      CaseIsIgnored(s[..n], t[..n]);
      assert SameDigit(s[n], t[n]);
    }
  }

  lemma {:induction false} BytesIgnoreCase(s: seq<byte>, t: seq<byte>)
    requires SameDigits(s, t)
    ensures Unhexed(s) == Unhexed(t)
    decreases |s|
  {
    if |s| > 0 {
      assert SameDigit(s[0], t[0]);
    }
    if |s| > 1 {
      assert SameDigit(s[1], t[1]);
      assert SameDigits(s[2..], t[2..]);
      BytesIgnoreCase(s[2..], t[2..]);
    }
  }

  lemma {:induction false} HexPlaces(n: nat, i: nat)
    requires i < |PrintHex(n)|
    ensures Pow16(i) > 0 && PrintHex(n)[|PrintHex(n)| - 1 - i] == HexDigit(n / Pow16(i) % 16)
    decreases n
  {
    if i > 0 {
      hide HexDigit;
      var before := PrintHex(n / 16);
      HexPlaces(n / 16, i - 1);
      assert PrintHex(n)[|before| - i] == before[|before| - 1 - (i - 1)];
      Shifted(n, 16, Pow16(i - 1), Pow16(i));
    }
  }

  function Pow16(k: nat): nat {
    if k == 0 then 1 else 16 * Pow16(k - 1)
  }

  /** Exactly the numbers below 16^k print in at most k digits. */
  lemma {:induction false} HexLength(n: nat, k: nat)
    requires k > 0
    ensures |PrintHex(n)| <= k <==> n < Pow16(k)
    decreases k
  {
    if n >= 16 {
      if k > 1 {
        HexLength(n / 16, k - 1);
      } else {
        HexRoundTrip(n / 16);
      }
    } else {
      Pow16Positive(k - 1);
    }
  }

  lemma {:induction false} Pow16Positive(k: nat)
    ensures Pow16(k) >= 1
  {
    if k > 0 {
      Pow16Positive(k - 1);
    }
  }

  // ----- hexadecimal byte strings

  /** `snprint_hex` with room enough: two digits a byte */
  function HexBytes(bs: seq<byte>): seq<byte> {
    if bs == [] then [] else [HexDigit(bs[0] / 16), HexDigit(bs[0] % 16)] + HexBytes(bs[1..])
  }

  /** `UNHEX`: two digits a byte; behind an odd last digit stands the separator, which counts as 0. */
  function Unhexed(s: seq<byte>): seq<byte>
    decreases |s|
  {
    if s == [] then []
    else if |s| == 1 then [Unhex(s[0], FS)]
    else [Unhex(s[0], s[1])] + Unhexed(s[2..])
  }

  lemma {:induction false} BytesRoundTrip(bs: seq<byte>)
    ensures Unhexed(HexBytes(bs)) == bs
    ensures |HexBytes(bs)| == 2 * |bs|
    ensures forall b | b in HexBytes(bs) :: IsXdigit(b)
  {
    if bs != [] {
      BytesRoundTrip(bs[1..]);
      NibbleRoundTrip(bs[0] / 16);
      NibbleRoundTrip(bs[0] % 16);
      assert HexBytes(bs)[2..] == HexBytes(bs[1..]);
    }
  }

  // ----- NUL-padded arrays

  /** The text of a char array: what stands before the first NUL (`stpncpy`). */
  function Text(a: seq<byte>): (t: seq<byte>)
    ensures |t| <= |a| && t == a[..|t|] && 0 !in t
    ensures |t| < |a| ==> a[|t|] == 0
  {
    if a == [] || a[0] == 0 then [] else [a[0]] + Text(a[1..])
  }

  /** `COPY` into a zeroed array of `width`. */
  function Stored(t: seq<byte>, width: nat): (a: seq<byte>)
    ensures |a| == width
    ensures forall k | 0 <= k < width :: a[k] == if k < |t| then t[k] else 0
  {
    if |t| >= width then t[..width] else t + seq(width - |t|, _ => 0)
  }

  predicate IsPadded(a: seq<byte>) {
    forall k | |Text(a)| <= k < |a| :: a[k] == 0
  }

  /** Reading back what was written restores an array exactly if it is padded. */
  lemma TextRoundTrip(a: seq<byte>)
    ensures Stored(Text(a), |a|) == a <==> IsPadded(a)
  {
    var s := Stored(Text(a), |a|);
    if IsPadded(a) {
      assert forall k | 0 <= k < |a| :: s[k] == a[k];
    } else {
      var k :| |Text(a)| <= k < |a| && a[k] != 0;
      assert s[k] == 0;
    }
  }
}
