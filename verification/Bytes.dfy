/** Bytes, the control characters of the protocol, and the longitudinal checksum. */
module Bytes {
  type byte = x: int | 0 <= x < 256

  const STX: byte := 0x02
  const ETX: byte := 0x03
  const ACK: byte := 0x06
  const NAK: byte := 0x15
  const FS: byte := 0x1C
  const US: byte := 0x1F

  datatype Option<+T> = None | Some(value: T)

  /** Bitwise exclusive or. */
  function XorNat(a: nat, b: nat): nat
    decreases a + b
  {
    if a == 0 && b == 0 then 0 else 2 * XorNat(a / 2, b / 2) + (a + b) % 2
  }

  lemma {:induction false} XorRange(a: nat, b: nat, k: nat)
    requires a < 2 * k && b < 2 * k && k in {1, 2, 4, 8, 16, 32, 64, 128}
    ensures XorNat(a, b) < 2 * k
    decreases k
  {
    if k > 1 {
      XorRange(a / 2, b / 2, k / 2);
    }
  }

  function Xor(a: byte, b: byte): byte {
    XorRange(a, b, 128);
    XorNat(a, b)
  }

  /** The lowest bit, and the rest. */
  lemma XorBits(a: nat, b: nat)
    ensures XorNat(a, b) / 2 == XorNat(a / 2, b / 2)
    ensures XorNat(a, b) % 2 == (a + b) % 2
  {
  }

  lemma ParityOfSum(x: nat, y: nat, z: nat)
    requires x % 2 == y % 2
    ensures (x + z) % 2 == (y + z) % 2
  {
  }

  lemma {:induction false} XorNatAssoc(a: nat, b: nat, c: nat)
    ensures XorNat(XorNat(a, b), c) == XorNat(a, XorNat(b, c))
    decreases a + b + c
  {
    hide XorNat;
    if a + b + c == 0 {
      XorNatSelf(0);
    } else {
      XorNatAssoc(a / 2, b / 2, c / 2);
      XorAssocStep(a, b, c);
    }
  }

  lemma XorAssocStep(a: nat, b: nat, c: nat)
    requires XorNat(XorNat(a / 2, b / 2), c / 2) == XorNat(a / 2, XorNat(b / 2, c / 2))
    ensures XorNat(XorNat(a, b), c) == XorNat(a, XorNat(b, c))
  {
    hide XorNat;
    XorBits(a, b);
    XorBits(b, c);
    XorBits(XorNat(a, b), c);
    XorBits(a, XorNat(b, c));
    ParityOfSum(XorNat(a, b), a + b, c);
    ParityOfSum(XorNat(b, c), b + c, a);
    HalvesAndParity(XorNat(XorNat(a, b), c), XorNat(a, XorNat(b, c)));
  }

  lemma HalvesAndParity(x: nat, y: nat)
    requires x / 2 == y / 2 && x % 2 == y % 2
    ensures x == y
  {
  }

  lemma {:induction false} XorNatSelf(a: nat)
    ensures XorNat(a, a) == 0
    ensures XorNat(a, 0) == a == XorNat(0, a)
  {
    if a > 0 {
      XorNatSelf(a / 2);
    }
  }

  lemma XorAssoc(a: byte, b: byte, c: byte)
    ensures Xor(Xor(a, b), c) == Xor(a, Xor(b, c))
  {
    XorNatAssoc(a, b, c);
  }

  lemma XorZero(a: byte)
    ensures Xor(a, 0) == a == Xor(0, a)
    ensures Xor(a, a) == 0
  {
    XorNatSelf(a);
  }

  /** XOR of all bytes of `s`. */
  function Lrc(s: seq<byte>): byte {
    if s == [] then 0 else Xor(s[0], Lrc(s[1..]))
  }

  lemma {:induction false} LrcConcat(a: seq<byte>, b: seq<byte>)
    ensures Lrc(a + b) == Xor(Lrc(a), Lrc(b))
  {
    if a == [] {
      assert a + b == b;
      XorZero(Lrc(b));
    } else {
      assert (a + b)[0] == a[0] && (a + b)[1..] == a[1..] + b;
      LrcConcat(a[1..], b);
      XorAssoc(a[0], Lrc(a[1..]), Lrc(b));
    }
  }

  lemma LrcSplit(s: seq<byte>, k: nat)
    requires k < |s|
    ensures Lrc(s) == Xor(Lrc(s[..k]), Xor(s[k], Lrc(s[k + 1..])))
  {
    hide Xor;
    LrcConcat(s[..k], s[k..]);
    assert s == s[..k] + s[k..];
    assert s[k..][1..] == s[k + 1..];
  }

  lemma XorCancels(a: byte, x: byte, y: byte)
    requires Xor(a, x) == Xor(a, y)
    ensures x == y
  {
    XorAssoc(a, a, x);
    XorAssoc(a, a, y);
    XorZero(a);
    XorZero(x);
    XorZero(y);
  }

  lemma {:induction false} XorNatCommutes(a: nat, b: nat)
    ensures XorNat(a, b) == XorNat(b, a)
    decreases a + b
  {
    if a + b > 0 {
      XorNatCommutes(a / 2, b / 2);
    }
  }

  /** The checksum notices the replacement of any single byte. */
  lemma LrcDetectsReplacement(s: seq<byte>, k: nat, b: byte)
    requires k < |s| && b != s[k]
    ensures Lrc(s[k := b]) != Lrc(s)
  {
    var t := s[k := b];
    assert t[..k] == s[..k] && t[k + 1..] == s[k + 1..];
    LrcSplit(s, k);
    LrcSplit(t, k);
    var pre, post := Lrc(s[..k]), Lrc(s[k + 1..]);
    if Lrc(t) == Lrc(s) {
      XorCancels(pre, Xor(b, post), Xor(s[k], post));
      XorNatCommutes(b, post);
      XorNatCommutes(s[k], post);
      XorCancels(post, b, s[k]);
    }
  }

  /** `calculate_lrc` walks the range [p, pe) of a buffer. */
  method CalculateLrc(buf: array<byte>, p: nat, pe: nat) returns (lrc: byte)
    requires p < pe <= buf.Length
    ensures lrc == Lrc(buf[p..pe])
  {
    lrc := 0;
    var i := p;
    while i != pe
      invariant p <= i <= pe
      invariant lrc == Lrc(buf[p..i])
    {
      assert buf[p..i + 1] == buf[p..i] + [buf[i]];
      LrcConcat(buf[p..i], [buf[i]]);
      XorZero(buf[i]);
      lrc := Xor(lrc, buf[i]);
      i := i + 1;
    }
  }

  /** First position at or after `from` that holds `b`, or `|s|`. */
  function IndexOf(s: seq<byte>, b: byte, from: nat): (r: nat)
    requires from <= |s|
    ensures from <= r <= |s|
    ensures r < |s| ==> s[r] == b
    ensures forall k | from <= k < r :: s[k] != b
    decreases |s| - from
  {
    if from == |s| || s[from] == b then from else IndexOf(s, b, from + 1)
  }
}
