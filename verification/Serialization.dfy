/** `serialize` of serialization.c: the cursor p, the free space f, and what a buffer too small receives. */
module Serialization {
  import opened Bytes
  import opened Numerals
  import opened Message
  import opened Cutting

  // ----- the frame, and the part of it that fits

  /** The items written, the closing checksum included. */
  function AllParts(m: Msg): seq<Part> {
    OpenParts(m) + [Sep(Lrc(Flat(OpenParts(m))[1..]))]
  }

  /** The whole frame. */
  function Full(m: Msg): seq<byte> {
    Flat(AllParts(m))
  }

  /** How many bytes the items take that are written before the first one that does not fit into s bytes. */
  function Fit(ps: seq<Part>, s: nat): nat {
    if ps == [] then 0
    else
      var n := |ps| - 1;
      var k, w := Fit(ps[..n], s), |Written(ps[n])|;
      if k == |Flat(ps[..n])| && k + w <= s then k + w else k
  }

  /** That is the largest item boundary not above s. */
  lemma {:induction false} FitIsLargestBoundary(ps: seq<Part>, s: nat)
    ensures Fit(ps, s) <= s && Fit(ps, s) <= |Flat(ps)|
    ensures exists i | 0 <= i <= |ps| :: Fit(ps, s) == |Flat(ps[..i])|
    ensures forall i | 0 <= i <= |ps| :: |Flat(ps[..i])| <= s ==> |Flat(ps[..i])| <= Fit(ps, s)
    ensures Fit(ps, s) == |Flat(ps)| <==> |Flat(ps)| <= s
    decreases |ps|
  {
    hide Written, Flat;
    if ps == [] {
      assert ps[..0] == [];
      FlatEmpty();
    } else {
      var n := |ps| - 1;
      var init := ps[..n];
      FitIsLargestBoundary(init, s);
      FlatGrows(ps);
      assert forall i | 0 <= i <= n :: ps[..i] == init[..i];
      assert ps[..n + 1] == ps && init[..n] == init;
      var j :| 0 <= j <= n && Fit(init, s) == |Flat(init[..j])|;
      assert ps[..j] == init[..j];
      assert Fit(ps, s) == |Flat(ps[..if Fit(ps, s) == Fit(init, s) then j else n + 1])|;
    }
  }

  lemma FlatEmpty()
    ensures Flat([]) == []
  {
  }

  lemma FlatGrows(ps: seq<Part>)
    requires ps != []
    ensures |Flat(ps)| == |Flat(ps[..|ps| - 1])| + |Written(ps[|ps| - 1])|
  {
  }

  // ----- sizes

  /** The most an item can take. */
  function Cost(p: Part): nat {
    match p
    case Sep(_) => 1
    case Token(_) => 6
    case Type(_) => 2
    case Data(Str(a)) => |a|
    case Data(Num(_)) => 10
    case Data(Hex(bs)) => 2 * |bs|
    case Data(Trx(_)) => 1
  }

  lemma WrittenWithinCost(p: Part)
    requires p.Token? ==> p.token < 0x100_0000
    ensures |Written(p)| <= Cost(p)
  {
    match p
    case Sep(_) =>
    case Token(n) =>
      assert Pow16(6) == 0x100_0000;
      HexLength(n, 6);
    case Type(_) =>
    case Data(Str(a)) =>
    case Data(Num(n)) =>
      assert Pow10(10) == 10_000_000_000;
      DecLength(n % WORD, 10, 10_000_000_000);
    case Data(Hex(bs)) =>
      BytesRoundTrip(bs);
    case Data(Trx(_)) =>
  }

  // ----- the cursor

  ghost predicate HasHex(ps: seq<Part>) {
    exists p :: p in ps && p.Data? && p.v.Hex?
  }

  lemma FitSnoc(ps: seq<Part>, p: Part, s: nat)
    ensures Flat(ps + [p]) == Flat(ps) + Written(p)
    ensures Fit(ps + [p], s) ==
            if Fit(ps, s) == |Flat(ps)| && Fit(ps, s) + |Written(p)| <= s then Fit(ps, s) + |Written(p)| else Fit(ps, s)
  {
    assert (ps + [p])[..|ps|] == ps;
  }

  const LIMIT: nat := 612

  class Writer {
    const buf: array<byte>
    const s: nat
    var p: nat
    var f: nat
    var bailed: bool
    /** The items handed over so far, and what the items still to come may cost. */
    ghost var parts: seq<Part>
    ghost var budget: nat
    /** A byte array exactly filled the space: `snprint_hex` wrote nothing, yet it was counted. */
    ghost var spoiled: bool

    ghost predicate Valid()
      reads this, buf
    {
      && s <= buf.Length && (s + 100 <= buf.Length || LIMIT <= buf.Length)
      && p + f == s
      && p == Fit(parts, s) && p <= |Flat(parts)| && |Flat(parts)| + budget <= LIMIT
      && (bailed <==> |Flat(parts)| > s)
      && (!bailed ==> p == |Flat(parts)|)
      && (if spoiled then f == 0 && HasHex(parts) else buf[..p] == Flat(parts)[..p])
    }

    constructor (buf: array<byte>, s: nat)
      requires s <= buf.Length && (s + 100 <= buf.Length || LIMIT <= buf.Length)
      ensures Valid() && this.buf == buf && this.s == s && parts == [] && budget == LIMIT && !bailed
    {
      this.buf, this.s, this.p, this.f, this.bailed := buf, s, 0, s, false;
      this.parts, this.budget, this.spoiled := [], LIMIT, false;
    }

    lemma ValidMeans()
      requires Valid()
      ensures p + f == s && p == Fit(parts, s) && p <= |Flat(parts)| && |Flat(parts)| + budget <= LIMIT
      ensures bailed <==> |Flat(parts)| > s
      ensures !bailed ==> p == |Flat(parts)|
      ensures !spoiled || !HasHex(parts) ==> buf[..p] == Flat(parts)[..p]
    {
    }

    // ----- the serializers: each writes what fits behind the cursor, and returns what it needs

    method AppendByte(b: byte) returns (rs: nat)
      requires p + f <= buf.Length
      modifies buf
      ensures rs == 1 && buf[..p] == old(buf[..p])
      ensures rs <= f ==> buf[p..p + rs] == [b] && buf[p + rs..] == old(buf[p + rs..])
      ensures rs > f ==> buf[..] == old(buf[..])
    {
      if f >= 1 {
        buf[p] := b;
      }
      rs := 1;
    }

    /** `memcpy` of a text that was printed elsewhere, if it fits: numbers, tokens and types. */
    method Copy(text: seq<byte>) returns (rs: nat)
      requires p + f <= buf.Length
      modifies buf
      ensures rs == |text| && buf[..p] == old(buf[..p])
      ensures rs <= f ==> buf[p..p + rs] == text && buf[p + rs..] == old(buf[p + rs..])
      ensures rs > f ==> buf[..] == old(buf[..])
    {
      rs := |text|;
      if rs <= f {
        forall i | 0 <= i < rs {
          buf[p + i] := text[i];
        }
        assert buf[p..p + rs] == text;
      }
    }

    /** The bytes up to the first NUL. */
    method CopyText(a: seq<byte>) returns (rs: nat)
      requires p + |a| <= buf.Length
      modifies buf
      ensures rs == |Text(a)| && buf[..p] == old(buf[..p]) && buf[p..p + rs] == Text(a)
      ensures buf[p + rs..] == old(buf[p + rs..])
    {
      rs := 0;
      while rs < |a| && a[rs] != 0
        invariant rs <= |Text(a)| && buf[..p] == old(buf[..p]) && buf[p..p + rs] == a[..rs]
        invariant buf[p + rs..] == old(buf[p + rs..])
        invariant rs < |a| ==> (a[rs] == 0 <==> rs == |Text(a)|)
      {
        assert old(buf[p + rs + 1..]) == old(buf[p + rs..])[1..];
        buf[p + rs] := a[rs];
        TextGoesOn(a, rs);
        rs := rs + 1;
      }
    }

    method Pad(from: nat, n: nat)
      requires from + n <= buf.Length
      modifies buf
      ensures buf[..from] == old(buf[..from]) && buf[from + n..] == old(buf[from + n..])
      ensures forall i | from <= i < from + n :: buf[i] == 0
    {
      forall i | from <= i < from + n {
        buf[i] := 0;
      }
    }

    /** `stpncpy` pads to the width of the array, whatever the free space. */
    method SerializeString(a: seq<byte>) returns (rs: nat)
      requires p + f <= buf.Length && p + |a| <= buf.Length
      modifies buf
      ensures rs == |Text(a)| && buf[..p] == old(buf[..p]) && buf[p..p + rs] == Text(a)
      ensures (forall i | p + rs <= i < p + |a| :: buf[i] == 0) && buf[p + |a|..] == old(buf[p + |a|..])
    {
      hide Text;
      ghost var start := buf[..];
      rs := CopyText(a);
      ghost var copied := buf[..];
      SameBehind(start, copied, p + rs, p + |a|);
      Pad(p + rs, |a| - rs);
      SameBefore(copied, buf[..], p, p + rs);
      assert buf[..p] == copied[..p] && buf[p..p + rs] == copied[p..p + rs] && buf[p + |a|..] == copied[p + |a|..];
    }

    lemma SameBehind(x: seq<byte>, y: seq<byte>, i: nat, k: nat)
      requires i <= k <= |x| == |y| && x[i..] == y[i..]
      ensures x[k..] == y[k..]
    {
      assert x[k..] == x[i..][k - i..] && y[k..] == y[i..][k - i..];
    }

    lemma SameBefore(x: seq<byte>, y: seq<byte>, i: nat, k: nat)
      requires i <= k <= |x| == |y| && x[..k] == y[..k]
      ensures x[..i] == y[..i] && x[i..k] == y[i..k]
    {
      assert x[..i] == x[..k][..i] && y[..i] == y[..k][..i] && x[i..k] == x[..k][i..] && y[i..k] == y[..k][i..];
    }

    /** `sprintf("%02X")`: two digits and a NUL. */
    method WriteByte(q: nat, b: byte)
      requires q + 2 < buf.Length
      modifies buf
      ensures buf[..q] == old(buf[..q]) && buf[q..q + 2] == [HexDigit(b / 16), HexDigit(b % 16)]
      ensures buf[q + 2] == 0 && buf[q + 3..] == old(buf[q + 3..])
    {
      buf[q] := HexDigit(b / 16);
      buf[q + 1] := HexDigit(b % 16);
      buf[q + 2] := 0;
    }

    /** One round of the loop of `snprint_hex`. */
    method AppendHex(bin: seq<byte>, i: nat)
      requires i < |bin| && p + 2 * i + 2 < buf.Length && buf[p..p + 2 * i] == HexBytes(bin[..i])
      modifies buf
      ensures buf[..p] == old(buf[..p]) && buf[p..p + 2 * i + 2] == HexBytes(bin[..i + 1])
      ensures buf[p + 2 * i + 3..] == old(buf[p + 2 * i + 3..])
    {
      hide HexBytes, HexDigit;
      HexSnoc(bin, i);
      ghost var before := buf[..p + 2 * i];
      assert before[p..] == buf[p..p + 2 * i] && before[..p] == buf[..p];
      WriteByte(p + 2 * i, bin[i]);
      assert buf[p..p + 2 * i] == before[p..] && buf[..p] == before[..p];
      assert buf[p..p + 2 * i + 2] == buf[p..p + 2 * i] + buf[p + 2 * i..p + 2 * i + 2];
    }

    /** `snprint_hex` leaves the buffer alone unless there is room for one NUL more. */
    method SnprintHex(bin: seq<byte>) returns (rs: nat)
      requires p + f <= buf.Length
      modifies buf
      ensures rs == |HexBytes(bin)| && buf[..p] == old(buf[..p])
      ensures rs < f ==> buf[p..p + rs] == HexBytes(bin) && buf[p + rs + 1..] == old(buf[p + rs + 1..])
      ensures rs >= f ==> buf[..] == old(buf[..])
    {
      hide HexBytes, HexDigit;
      HexBytesLength(bin);
      if f >= |bin| * 2 + 1 {
        var i := 0;
        assert bin[..0] == [];
        HexBytesLength([]);
        while i < |bin|
          invariant i <= |bin| && buf[..p] == old(buf[..p])
          invariant buf[p..p + 2 * i] == HexBytes(bin[..i])
          invariant buf[p + 2 * i + 1..] == old(buf[p + 2 * i + 1..])
        {
          Later(old(buf[..]), p + 2 * i + 1);
          Later(buf[..], p + 2 * i + 1);
          AppendHex(bin, i);
          i := i + 1;
        }
        assert bin[..|bin|] == bin;
      }
      rs := |bin| * 2;
    }

    lemma Later(b: seq<byte>, k: nat)
      requires k + 2 <= |b|
      ensures b[k..][2..] == b[k + 2..]
    {
    }

    /** `serialize_field` */
    method SerializeField(part: Part) returns (rs: nat)
      requires p + f <= buf.Length && (part.Data? && part.v.Str? ==> p + |part.v.chars| <= buf.Length)
      modifies buf
      ensures rs == |Written(part)| && buf[..p] == old(buf[..p])
      ensures rs <= f && !(part.Data? && part.v.Hex? && rs == f) ==> buf[p..p + rs] == Written(part)
    {
      hide HexBytes, PrintHex, PrintDec, TypeToString, Text;
      match part {
        case Sep(b) => rs := AppendByte(b);
        case Token(n) => rs := Copy(PrintHex(n));
        case Type(t) => rs := Copy(TypeToString(t));
        case Data(Str(a)) => rs := SerializeString(a);
        case Data(Num(n)) => rs := Copy(PrintDec(n % WORD));
        case Data(Hex(bs)) => rs := SnprintHex(bs);
        case Data(Trx(isVoid)) => rs := AppendByte(if isVoid then 'C' as int else 'S' as int);
      }
    }

    /** `XCOPY`; after a `goto bail` nothing happens any more. */
    method XCopy(part: Part)
      requires Valid() && Cost(part) <= budget && (part.Token? ==> part.token < 0x100_0000)
      requires part.Data? && part.v.Str? ==> |part.v.chars| <= 100
      modifies this, buf
      ensures Valid() && parts == old(parts) + [part] && budget == old(budget) - Cost(part)
      ensures part.Sep? && !bailed ==> !spoiled
    {
      hide Cost, Fit, Flat, Written, HasHex;
      WrittenWithinCost(part);
      FitSnoc(parts, part, s);
      HexStays(parts, part);
      ghost var before, written := Flat(parts), Written(part);
      parts, budget := parts + [part], budget - Cost(part);
      KeptPrefix(before, written, p);
      if bailed {
        return;
      }
      StringCost(part);
      var rs := SerializeField(part);
      assert buf[..p] == old(buf[..p]);
      if rs > f {
        bailed := true;
        return;
      }
      if !spoiled && !(part.Data? && part.v.Hex? && rs == f) {
        Appended(buf[..p + rs], before, written);
        assert buf[..p + rs][..p] == buf[..p] && buf[..p + rs][p..] == buf[p..p + rs];
      } else {
        spoiled := true;
      }
      p := p + rs;
      f := f - rs;
    }

    /** `FCOPY` */
    method FCopy(v: Value)
      requires Valid() && Cost(Data(v)) + 1 <= budget && (v.Str? ==> |v.chars| <= 100)
      modifies this, buf
      ensures Valid() && parts == old(parts) + F(v) && budget == old(budget) - Cost(Data(v)) - 1
    {
      XCopy(Data(v));
      XCopy(Sep(FS));
      assert parts == old(parts) + F(v);
    }

    /** `UCOPY` */
    method UCopy(v: Value)
      requires Valid() && Cost(Data(v)) + 1 <= budget && (v.Str? ==> |v.chars| <= 100)
      modifies this, buf
      ensures Valid() && parts == old(parts) + U(v) && budget == old(budget) - Cost(Data(v)) - 1
    {
      XCopy(Data(v));
      XCopy(Sep(US));
      assert parts == old(parts) + U(v);
    }
  }

  lemma KeptPrefix(before: seq<byte>, written: seq<byte>, p: nat)
    requires p <= |before|
    ensures (before + written)[..p] == before[..p]
  {
  }

  lemma Appended(b: seq<byte>, before: seq<byte>, written: seq<byte>)
    ensures |b| == |before + written| && b[..|before|] == before[..|before|] && b[|before|..] == written ==>
            b == (before + written)[..|b|]
  {
    if |b| == |before + written| && b[..|before|] == before[..|before|] && b[|before|..] == written {
      assert b == b[..|before|] + b[|before|..];
    }
  }

  lemma HexStays(ps: seq<Part>, p: Part)
    ensures HasHex(ps) || (p.Data? && p.v.Hex?) ==> HasHex(ps + [p])
  {
    assert forall q | q in ps :: q in ps + [p];
    assert p in ps + [p];
  }

  lemma StringCost(part: Part)
    ensures part.Data? && part.v.Str? ==> |part.v.chars| == Cost(part)
    ensures part.Sep? ==> |Written(part)| == 1
  {
  }

  lemma {:induction false} TextGoesOn(a: seq<byte>, i: nat)
    requires i < |Text(a)|
    ensures i + 1 < |a| ==> (a[i + 1] == 0 <==> i + 1 == |Text(a)|)
    ensures a[i] != 0
  {
    assert a[i] == Text(a)[i] && Text(a)[i] in Text(a);
    if i + 1 < |Text(a)| {
      assert a[i + 1] == Text(a)[i + 1] && Text(a)[i + 1] in Text(a);
    }
  }

  lemma HexBytesLength(bs: seq<byte>)
    ensures |HexBytes(bs)| == 2 * |bs|
  {
    BytesRoundTrip(bs);
  }

  lemma {:induction false} HexSnoc(bs: seq<byte>, i: nat)
    requires i < |bs|
    ensures HexBytes(bs[..i + 1]) == HexBytes(bs[..i]) + [HexDigit(bs[i] / 16), HexDigit(bs[i] % 16)]
    decreases i
  {
    assert bs[..i + 1][0] == bs[0] && bs[..i + 1][1..] == bs[1..][..i];
    if i > 0 {
      HexSnoc(bs[1..], i - 1);
      assert bs[..i][0] == bs[0] && bs[..i][1..] == bs[1..][..i - 1];
      assert bs[1..][i - 1] == bs[i];
    } else {
      assert bs[..0] == [];
    }
  }

  // ----- the function

  lemma Grow(a: seq<Part>, b: seq<Part>, c: seq<Part>) returns (bc: seq<Part>)
    ensures bc == b + c && a + b + c == a + bc
  {
    bc := b + c;
  }

  method CopyInfo(w: Writer, i: DeviceInfo)
    requires w.Valid() && InfoSized(i) && w.budget >= 68
    modifies w, w.buf
    ensures w.Valid() && w.parts == old(w.parts) + InfoParts(i) && w.budget == old(w.budget) - 68
  {
    hide Writer.Valid, Flat, Fit, Written, Content, F, U;
    ghost var start := w.parts;
    ghost var done := F(Str(i.version));
    w.FCopy(Str(i.version));
    w.FCopy(Str(i.vendor));
    done := Grow(start, done, F(Str(i.vendor)));
    w.FCopy(Str(i.deviceType));
    done := Grow(start, done, F(Str(i.deviceType)));
    w.FCopy(Str(i.deviceId));
    done := Grow(start, done, F(Str(i.deviceId)));
    assert w.parts == start + InfoParts(i);
  }

  method CopyWidths(w: Writer, d: D5)
    requires w.Valid() && w.budget >= 44
    modifies w, w.buf
    ensures w.Valid() && w.parts == old(w.parts) + WidthParts(d) && w.budget == old(w.budget) - 44
  {
    hide Writer.Valid, Flat, Fit, Written, Content, F, U;
    ghost var start := w.parts;
    ghost var done := F(Num(d.printerCpl));
    w.FCopy(Num(d.printerCpl));
    w.FCopy(Num(d.printerCpl2x));
    done := Grow(start, done, F(Num(d.printerCpl2x)));
    w.FCopy(Num(d.printerCpl4x));
    done := Grow(start, done, F(Num(d.printerCpl4x)));
    w.FCopy(Num(d.printerCpln));
    done := Grow(start, done, F(Num(d.printerCpln)));
    assert w.parts == start + WidthParts(d);
  }

  method CopyStyles(w: Writer, d: D5)
    requires w.Valid() && w.budget >= 33
    modifies w, w.buf
    ensures w.Valid() && w.parts == old(w.parts) + StyleParts(d) && w.budget == old(w.budget) - 33
  {
    hide Writer.Valid, Flat, Fit, Written, Content, F, U;
    ghost var start := w.parts;
    ghost var done := F(Bool(d.printerH2));
    w.FCopy(Bool(d.printerH2));
    w.FCopy(Bool(d.printerH4));
    done := Grow(start, done, F(Bool(d.printerH4)));
    w.FCopy(Bool(d.printerInv));
    done := Grow(start, done, F(Bool(d.printerInv)));
    assert w.parts == start + StyleParts(d);
  }

  method CopyBitmaps(w: Writer, d: D5)
    requires w.Valid() && w.budget >= 55
    modifies w, w.buf
    ensures w.Valid() && w.parts == old(w.parts) + BitmapParts(d) && w.budget == old(w.budget) - 55
  {
    hide Writer.Valid, Flat, Fit, Written, Content, F, U;
    ghost var start := w.parts;
    ghost var done := F(Num(d.maxBarcodeLength));
    w.FCopy(Num(d.maxBarcodeLength));
    w.FCopy(Num(d.maxQrcodeLength));
    done := Grow(start, done, F(Num(d.maxQrcodeLength)));
    w.FCopy(Num(d.maxBitmapCount));
    done := Grow(start, done, F(Num(d.maxBitmapCount)));
    w.FCopy(Num(d.maxBitmapWidth));
    done := Grow(start, done, F(Num(d.maxBitmapWidth)));
    w.FCopy(Num(d.maxBitmapHeight));
    done := Grow(start, done, F(Num(d.maxBitmapHeight)));
    assert w.parts == start + BitmapParts(d);
  }

  method CopyDisplay(w: Writer, d: D5)
    requires w.Valid() && w.budget >= 44
    modifies w, w.buf
    ensures w.Valid() && w.parts == old(w.parts) + DisplayParts(d) && w.budget == old(w.budget) - 44
  {
    hide Writer.Valid, Flat, Fit, Written, Content, F, U;
    ghost var start := w.parts;
    ghost var done := F(Num(d.aspectRatio));
    w.FCopy(Num(d.aspectRatio));
    w.FCopy(Num(d.bufferMaxLines));
    done := Grow(start, done, F(Num(d.bufferMaxLines)));
    w.FCopy(Num(d.displayLc));
    done := Grow(start, done, F(Num(d.displayLc)));
    w.FCopy(Num(d.displayCpl));
    done := Grow(start, done, F(Num(d.displayCpl)));
    assert w.parts == start + DisplayParts(d);
  }

  method CopyKeys(w: Writer, k: KeyNames)
    requires w.Valid() && w.budget >= 85
    requires |k.enter| == |k.cancel| == |k.check| == |k.backspace| == |k.delete| == 16
    modifies w, w.buf
    ensures w.Valid() && w.parts == old(w.parts) + KeyParts(k) && w.budget == old(w.budget) - 85
  {
    hide Writer.Valid, Flat, Fit, Written, Content, F, U;
    ghost var start := w.parts;
    ghost var done := U(Str(k.enter));
    w.UCopy(Str(k.enter));
    w.UCopy(Str(k.cancel));
    done := Grow(start, done, U(Str(k.cancel)));
    w.UCopy(Str(k.check));
    done := Grow(start, done, U(Str(k.check)));
    w.UCopy(Str(k.backspace));
    done := Grow(start, done, U(Str(k.backspace)));
    w.UCopy(Str(k.delete));
    done := Grow(start, done, U(Str(k.delete)));
    assert w.parts == start + KeyParts(k);
  }

  method CopyArrows(w: Writer, k: KeyNames)
    requires w.Valid() && w.budget >= 69
    requires |k.up| == |k.down| == |k.left| == |k.right| == 16
    modifies w, w.buf
    ensures w.Valid() && w.parts == old(w.parts) + ArrowParts(k) && w.budget == old(w.budget) - 69
  {
    hide Writer.Valid, Flat, Fit, Written, Content, F, U;
    ghost var start := w.parts;
    ghost var done := U(Str(k.up));
    w.UCopy(Str(k.up));
    w.UCopy(Str(k.down));
    done := Grow(start, done, U(Str(k.down)));
    w.UCopy(Str(k.left));
    done := Grow(start, done, U(Str(k.left)));
    w.UCopy(Str(k.right));
    done := Grow(start, done, U(Str(k.right)));
    w.XCopy(Sep(FS));
    done := Grow(start, done, [Sep(FS)]);
    assert w.parts == start + ArrowParts(k);
  }

  method CopyDevice(w: Writer, d: D5)
    requires w.Valid() && w.budget >= 55
    modifies w, w.buf
    ensures w.Valid() && w.parts == old(w.parts) + DeviceParts(d) && w.budget == old(w.budget) - 55
  {
    hide Writer.Valid, Flat, Fit, Written, Content, F, U;
    ghost var start := w.parts;
    ghost var done := F(Num(d.deviceTopo));
    w.FCopy(Num(d.deviceTopo));
    w.FCopy(Bool(d.nfc));
    done := Grow(start, done, F(Bool(d.nfc)));
    w.FCopy(Bool(d.ccr));
    done := Grow(start, done, F(Bool(d.ccr)));
    w.FCopy(Bool(d.mcr));
    done := Grow(start, done, F(Bool(d.mcr)));
    w.FCopy(Bool(d.bar));
    done := Grow(start, done, F(Bool(d.bar)));
    assert w.parts == start + DeviceParts(d);
  }

  method CopyVersions(w: Writer, vs: seq<seq<byte>>)
    requires w.Valid() && |vs| == 20 && (forall v | v in vs :: IsVersion(v)) && w.budget >= 101
    modifies w, w.buf
    ensures w.Valid() && w.parts == old(w.parts) + (VersionParts(vs) + [Sep(FS)]) && w.budget == old(w.budget) - 101
  {
    hide Writer.Valid, Flat, Fit, Written, Content, F, U;
    ghost var start, b := w.parts, w.budget;
    for i := 0 to |vs|
      invariant w.Valid() && w.parts == start + VersionParts(vs[..i]) && w.budget == b - 5 * i
    {
      assert vs[i] in vs;
      w.UCopy(Str(vs[i]));
      assert vs[..i + 1][..i] == vs[..i];
      assert w.parts == start + VersionParts(vs[..i + 1]);
    }
    assert vs[..|vs|] == vs;
    w.XCopy(Sep(FS));
    assert w.parts == start + (VersionParts(vs) + [Sep(FS)]);
  }

  method CopySale(w: Writer, s: S1)
    requires w.Valid() && w.budget >= 70
    requires Sized(BodyS1(s))
    modifies w, w.buf
    ensures w.Valid() && w.parts == old(w.parts) + SaleParts(s) && w.budget == old(w.budget) - 70
  {
    hide Writer.Valid, Flat, Fit, Written, Content, F, U;
    ghost var start := w.parts;
    ghost var done := F(Trx(s.isVoid));
    w.FCopy(Trx(s.isVoid));
    w.FCopy(Str(s.ecrId));
    done := Grow(start, done, F(Str(s.ecrId)));
    w.FCopy(Str(s.paymentId));
    done := Grow(start, done, F(Str(s.paymentId)));
    w.FCopy(Str(s.amountGross));
    done := Grow(start, done, F(Str(s.amountGross)));
    w.FCopy(Str(s.amountNet));
    done := Grow(start, done, F(Str(s.amountNet)));
    assert w.parts == start + SaleParts(s);
  }

  method CopyMoney(w: Writer, s: S1)
    requires w.Valid() && w.budget >= 43
    requires Sized(BodyS1(s))
    modifies w, w.buf
    ensures w.Valid() && w.parts == old(w.parts) + MoneyParts(s) && w.budget == old(w.budget) - 43
  {
    hide Writer.Valid, Flat, Fit, Written, Content, F, U;
    ghost var start := w.parts;
    ghost var done := F(Str(s.vat));
    w.FCopy(Str(s.vat));
    w.FCopy(Str(s.currency));
    done := Grow(start, done, F(Str(s.currency)));
    w.FCopy(Str(s.cashback));
    done := Grow(start, done, F(Str(s.cashback)));
    w.FCopy(Str(s.maxCashback));
    done := Grow(start, done, F(Str(s.maxCashback)));
    assert w.parts == start + MoneyParts(s);
  }

  method CopyS2(w: Writer, s: S2)
    requires w.Valid() && Sized(BodyS2(s)) && w.budget >= 266
    modifies w, w.buf
    ensures w.Valid() && w.parts == old(w.parts) + BodyParts(BodyS2(s)) && w.budget == old(w.budget) - 266
  {
    hide Writer.Valid, Flat, Fit, Written, Content, F, U;
    ghost var start := w.parts;
    ghost var done := F(Num(s.error)) + F(Hex(s.cardToken)) + F(Str(s.mid)) + F(Str(s.tid));
    CopyCard(w, s);
    w.FCopy(Str(s.trxAmount));
    done := Grow(start, done, F(Str(s.trxAmount)));
    w.FCopy(Str(s.cashback));
    done := Grow(start, done, F(Str(s.cashback)));
    w.FCopy(Str(s.paymentMethod));
    done := Grow(start, done, F(Str(s.paymentMethod)));
    w.FCopy(Str(s.msg));
    done := Grow(start, done, F(Str(s.msg)));
    assert w.parts == start + BodyParts(BodyS2(s));
  }

  method CopyCard(w: Writer, s: S2)
    requires w.Valid() && Sized(BodyS2(s)) && w.budget >= 118
    modifies w, w.buf
    ensures w.Valid() && w.budget == old(w.budget) - 118
    ensures w.parts == old(w.parts) + (F(Num(s.error)) + F(Hex(s.cardToken)) + F(Str(s.mid)) + F(Str(s.tid)))
  {
    hide Writer.Valid, Flat, Fit, Written, Content, F, U;
    ghost var start := w.parts;
    ghost var done := F(Num(s.error));
    w.FCopy(Num(s.error));
    w.FCopy(Hex(s.cardToken));
    done := Grow(start, done, F(Hex(s.cardToken)));
    w.FCopy(Str(s.mid));
    done := Grow(start, done, F(Str(s.mid)));
    w.FCopy(Str(s.tid));
    done := Grow(start, done, F(Str(s.tid)));
    assert w.parts == start + (F(Num(s.error)) + F(Hex(s.cardToken)) + F(Str(s.mid)) + F(Str(s.tid)));
  }

  method CopyD5(w: Writer, d: D5)
    requires w.Valid() && Sized(BodyD5(d)) && w.budget >= 385
    modifies w, w.buf
    ensures w.Valid() && w.parts == old(w.parts) + BodyParts(BodyD5(d)) && w.budget == old(w.budget) - 385
  {
    hide Writer.Valid, Flat, Fit, Written, Content, WidthParts, StyleParts, BitmapParts, DisplayParts, KeyParts,
         ArrowParts, DeviceParts;
    ghost var start := w.parts;
    CopyWidths(w, d);
    CopyStyles(w, d);
    CopyBitmaps(w, d);
    CopyDisplay(w, d);
    CopyKeys(w, d.keyName);
    CopyArrows(w, d.keyName);
    CopyDevice(w, d);
    assert w.parts == start + BodyParts(BodyD5(d));
  }

  method CopyB2(w: Writer, b: Body)
    requires w.Valid() && b.BodyB2? && Sized(b) && w.budget >= 599
    modifies w, w.buf
    ensures w.Valid() && w.parts == old(w.parts) + BodyParts(b) && w.budget == old(w.budget) - 599
  {
    hide Writer.Valid, Flat, Fit, Written, Content, InfoParts;
    ghost var start := w.parts;
    CopyInfo(w, b.info);
    w.FCopy(Num(b.result));
    w.FCopy(Hex(b.modulus));
    w.FCopy(Hex(b.exponent));
    assert w.parts == start + BodyParts(b);
  }

  /** The cases of the switch with at most two fields. */
  method CopySmall(w: Writer, b: Body)
    requires w.Valid() && Sized(b) && w.budget >= 520
    requires b.BodyT5? || b.BodyI1? || b.BodyA2? || b.BodyB3? || b.BodyB4? || b.BodyK0?
    modifies w, w.buf
    ensures w.Valid() && w.parts == old(w.parts) + BodyParts(b) && w.budget >= old(w.budget) - 520
  {
    hide Writer.Valid, Flat, Fit, Written, Content, F, U;
    ghost var start := w.parts;
    match b {
      case BodyT5(v) => w.FCopy(Str(v));
      case BodyI1(status, msg) =>
        w.FCopy(Num(status));
        w.FCopy(Str(msg));
      case BodyA2(error, msg) =>
        w.FCopy(Num(error));
        w.FCopy(Str(msg));
      case BodyB3(kek, kcv) =>
        w.FCopy(Hex(kek));
        w.FCopy(Hex(kcv));
      case BodyB4(result) => w.FCopy(Num(result));
      case BodyK0(result, output) =>
        w.FCopy(Num(result));
        w.FCopy(Str(output));
    }
    assert w.parts == start + BodyParts(b);
  }

  /** The switch of `serialize` */
  method CopyBody(w: Writer, b: Body)
    requires w.Valid() && Sized(b) && w.budget >= 599
    modifies w, w.buf
    ensures w.Valid() && w.parts == old(w.parts) + BodyParts(b) && w.budget >= old(w.budget) - 599
  {
    hide Writer.Valid, Flat, Fit, Written, Content, F, U, InfoParts, VersionParts, SaleParts, MoneyParts;
    ghost var start := w.parts;
    match b {
      case BodyT1 =>
      case BodyT3 =>
      case BodyD4 =>
      case BodyP1 =>
      case BodyA1 =>
      case BodyK1 =>
      case BodyT2(info) => CopyInfo(w, info);
      case BodyT4(vs) => CopyVersions(w, vs);
      case BodyD5(d) => CopyD5(w, d);
      case BodyS1(s) =>
        CopySale(w, s);
        CopyMoney(w, s);
      case BodyS2(s) => CopyS2(w, s);
      case BodyB1(info) => CopyInfo(w, info);
      case BodyB2(_, _, _, _) => CopyB2(w, b);
      case _ => CopySmall(w, b);
    }
    assert w.parts == start + BodyParts(b);
  }

  lemma OneByte()
    ensures forall b: byte :: Cost(Sep(b)) == 1
  {
  }

  /** Everything up to ETX. */
  method WriteOpen(w: Writer, msg: Msg)
    requires w.Valid() && w.parts == [] && w.budget == LIMIT && Sized(msg.body) && msg.token < 0x100_0000
    modifies w, w.buf
    ensures w.Valid() && w.parts == OpenParts(msg) && w.budget >= 1 && (!w.bailed ==> !w.spoiled)
  {
    hide Writer.Valid, Flat, Fit, Written, BodyParts, IsType, TypeOf, Sized;
    w.XCopy(Sep(STX));
    w.XCopy(Token(msg.token));
    w.XCopy(Sep(FS));
    w.XCopy(Type(TypeOf(msg.body)));
    w.XCopy(Sep(FS));
    CopyBody(w, msg.body);
    w.XCopy(Sep(ETX));
    assert w.parts == OpenParts(msg);
  }

  /** `serialize` into the first s bytes of a buffer with slack behind them (`stpncpy` pads whole arrays).
      It succeeds exactly if the frame fits, and otherwise gives, negated, the largest item boundary
      that fits; without hexadecimal arrays the buffer then holds that much of the frame. */
  method Serialize(s: nat, buf: array<byte>, msg: Msg) returns (r: int)
    requires s <= buf.Length && (s + 100 <= buf.Length || LIMIT <= buf.Length)
    requires Sized(msg.body) && msg.token < 0x100_0000
    modifies buf
    ensures |Full(msg)| <= LIMIT
    ensures |Full(msg)| <= s ==> r == |Full(msg)| && buf[..r] == Full(msg)
    ensures |Full(msg)| <= s && msg.body.BodyT4? ==> HoldsVersions(buf[..r], msg.token, msg.body.versions)
    ensures |Full(msg)| > s ==> r + Fit(AllParts(msg), s) == 0
    ensures |Full(msg)| > s && !HasHex(AllParts(msg)) ==>
              var k := Fit(AllParts(msg), s); k <= s && k <= |Full(msg)| && buf[..k] == Full(msg)[..k]
  {
    hide Writer.Valid, Flat, Fit, Written, OpenParts, HasHex, Sized, Cost, HoldsVersions;
    var w := new Writer(buf, s);
    WriteOpen(w, msg);
    OneByte();
    OpenNotEmpty(msg);
    w.ValidMeans();
    ghost var start := Flat(OpenParts(msg));
    ghost var last := Sep(Lrc(start[1..]));
    FitSnoc(OpenParts(msg), last, s);
    if w.bailed {
      HexStays(OpenParts(msg), last);
      BoundLast(w.parts, last, w.budget);
      return -(w.p as int);
    }
    assert buf[..w.p] == start;
    assert buf[1..w.p] == start[1..];
    var lrc := CalculateLrc(buf, 1, w.p);
    w.XCopy(Sep(lrc));
    w.ValidMeans();
    if w.bailed {
      return -(w.p as int);
    }
    r := s - w.f;
    if msg.body.BodyT4? {
      FullHoldsVersions(msg);
    }
  }

  // ----- the versions of a T4, as they are in the frame

  function VersionTexts(vs: seq<seq<byte>>): (ts: seq<seq<byte>>)
    ensures |ts| == |vs|
  {
    seq(|vs|, k requires 0 <= k < |vs| => Text(vs[k]))
  }

  /** Between header and ETX stand the versions, every one of them with US behind it, and one FS. */
  predicate HoldsVersions(frame: seq<byte>, token: nat, vs: seq<seq<byte>>) {
    var h := |PrintHex(token)| + 5;
    h + 3 <= |frame| && frame[h..|frame| - 2] == Lines(US, VersionTexts(vs)) + [FS]
  }

  lemma {:induction false} VersionsAreLines(vs: seq<seq<byte>>)
    ensures Flat(VersionParts(vs)) == Lines(US, VersionTexts(vs))
  {
    hide Text, Flat, Lines;
    if vs == [] {
      NothingFlat();
    } else {
      var n := |vs| - 1;
      VersionsAreLines(vs[..n]);
      FlatConcat(VersionParts(vs[..n]), U(Str(vs[n])));
      FlatU(vs[n]);
      LinesSnoc(US, VersionTexts(vs[..n]), Text(vs[n]));
      assert VersionTexts(vs) == VersionTexts(vs[..n]) + [Text(vs[n])];
    }
  }

  lemma NothingFlat()
    ensures Flat([]) == [] == Lines(US, [])
  {
  }

  lemma FlatU(v: seq<byte>)
    ensures Flat(U(Str(v))) == Text(v) + [US]
  {
    hide Flat, Text;
    assert U(Str(v)) == [Data(Str(v))] + [Sep(US)];
    FlatConcat([Data(Str(v))], [Sep(US)]);
    FlatOne(Data(Str(v)));
    FlatOne(Sep(US));
  }

  lemma FullHoldsVersions(m: Msg)
    requires m.body.BodyT4?
    ensures HoldsVersions(Full(m), m.token, m.body.versions)
  {
    hide Flat, Lines, PrintHex, Written, TypeOf, IsType, VersionParts, Lrc;
    var vs := m.body.versions;
    var head := [Sep(STX), Token(m.token), Sep(FS), Type(TypeOf(m.body)), Sep(FS)];
    OpenNotEmpty(m);
    var last := Sep(Lrc(Flat(OpenParts(m))[1..]));
    HeadLength(m);
    VersionsAreLines(vs);
    FlatConcat(VersionParts(vs), [Sep(FS)]);
    FlatConcat(head, BodyParts(m.body));
    FlatConcat(head + BodyParts(m.body), [Sep(ETX)]);
    FlatConcat(OpenParts(m), [last]);
    FlatByte(FS);
    FlatByte(ETX);
    FlatByte(last.b);
    var x, y := Flat(head), Lines(US, VersionTexts(vs)) + [FS];
    assert Full(m) == x + y + [ETX] + [last.b];
    assert (x + y + [ETX] + [last.b])[|x|..|x| + |y|] == y;
  }

  lemma FlatByte(b: byte)
    ensures Flat([Sep(b)]) == [b]
  {
    FlatOne(Sep(b));
  }

  /** So, if no version holds a US itself, the bytes cut at US are the versions, in order, and the FS; and there are
      exactly as many US as versions. */
  lemma VersionsAreCut(frame: seq<byte>, token: nat, vs: seq<seq<byte>>)
    requires HoldsVersions(frame, token, vs) && forall v | v in vs :: US !in Text(v)
    ensures var h := |PrintHex(token)| + 5;
            var bytes := frame[h..|frame| - 2];
            && Cut(US, bytes) == VersionTexts(vs) + [[FS]]
            && multiset(bytes)[US] == |vs|
  {
    hide PrintHex, Text, Lines, Cut;
    var ts, bytes := VersionTexts(vs), frame[|PrintHex(token)| + 5..|frame| - 2];
    forall k | 0 <= k < |ts| ensures US !in ts[k] {
      assert vs[k] in vs;
    }
    LinesThenFs(ts);
    CutCounts(US, bytes);
  }

  lemma LinesThenFs(ts: seq<seq<byte>>)
    requires AreFree(US, ts)
    ensures Cut(US, Lines(US, ts) + [FS]) == ts + [[FS]]
  {
    hide Cut;
    var t := Lines(US, ts) + [FS];
    CutLines(US, t);
    LinesSnoc(US, ts, [FS]);
    LinesAreCut(US, Cut(US, t), ts + [[FS]]);
  }

  lemma BoundLast(ps: seq<Part>, p: Part, budget: nat)
    requires |Flat(ps)| + budget <= LIMIT && p.Sep? && budget >= 1
    ensures |Flat(ps + [p])| <= LIMIT
  {
    FitSnoc(ps, p, 0);
  }

  lemma OpenNotEmpty(m: Msg)
    ensures |Flat(OpenParts(m))| > 1
  {
    var rest := [Token(m.token), Sep(FS), Type(TypeOf(m.body)), Sep(FS)] + BodyParts(m.body) + [Sep(ETX)];
    assert OpenParts(m) == [Sep(STX)] + rest;
    FlatConcat([Sep(STX)], rest);
    assert rest[..|rest| - 1] + [Sep(ETX)] == rest;
    FlatConcat(rest[..|rest| - 1], [Sep(ETX)]);
    FlatOne(Sep(STX));
    FlatOne(Sep(ETX));
  }

  lemma FlatOne(p: Part)
    ensures Flat([p]) == Written(p)
  {
    assert [p][..0] == [];
  }

  lemma FlatF(v: Value)
    ensures |Flat(F(v))| == |Content(v)| + 1
  {
    assert F(v) == [Data(v)] + [Sep(FS)];
    FlatConcat([Data(v)], [Sep(FS)]);
    FlatOne(Data(v));
    FlatOne(Sep(FS));
  }

  lemma InfoLength(i: DeviceInfo)
    ensures |Flat(InfoParts(i))| == |Text(i.version)| + |Text(i.vendor)| + |Text(i.deviceType)| + |Text(i.deviceId)| + 4
  {
    hide Flat, F;
    var a, b, c, d := F(Str(i.version)), F(Str(i.vendor)), F(Str(i.deviceType)), F(Str(i.deviceId));
    FlatConcat(a + b + c, d);
    FlatConcat(a + b, c);
    FlatConcat(a, b);
    FlatF(Str(i.version));
    FlatF(Str(i.vendor));
    FlatF(Str(i.deviceType));
    FlatF(Str(i.deviceId));
  }

  lemma B2Length(m: Msg)
    requires m.body.BodyB2? && Sized(m.body)
    ensures var b := m.body;
            |Full(m)| == 532 + |PrintHex(m.token)| + |PrintDec(b.result % WORD)|
                         + |Text(b.info.version)| + |Text(b.info.vendor)|
                         + |Text(b.info.deviceType)| + |Text(b.info.deviceId)|
  {
    hide Flat, F, InfoParts, IsType, PrintHex, PrintDec, HexBytes, Text;
    var b := m.body;
    var head := [Sep(STX), Token(m.token), Sep(FS), Type(TypeOf(b)), Sep(FS)];
    var r, mo, e := F(Num(b.result)), F(Hex(b.modulus)), F(Hex(b.exponent));
    HeadLength(m);
    InfoLength(b.info);
    FlatF(Num(b.result));
    FlatF(Hex(b.modulus));
    FlatF(Hex(b.exponent));
    HexBytesLength(b.modulus);
    HexBytesLength(b.exponent);
    FlatConcat(r + mo, e);
    FlatConcat(r, mo);
    FlatConcat(InfoParts(b.info), r + mo + e);
    FlatConcat(head, BodyParts(b));
    FlatConcat(head + BodyParts(b), [Sep(ETX)]);
    FlatOne(Sep(ETX));
    FitSnoc(OpenParts(m), Sep(Lrc(Flat(OpenParts(m))[1..])), 0);
  }

  /** The limit is reached, by exactly those B2 messages that have nothing shorter than it can be. */
  lemma LimitReachedByB2(m: Msg)
    requires m.body.BodyB2? && Sized(m.body) && m.token < 0x100_0000
    ensures |Full(m)| == LIMIT <==>
            var b := m.body;
            && m.token >= 0x10_0000 && b.result % WORD >= 1_000_000_000
            && 0 !in b.info.version && 0 !in b.info.vendor && 0 !in b.info.deviceType && 0 !in b.info.deviceId
  {
    hide Full, PrintHex, PrintDec, Text;
    var b := m.body;
    B2Length(m);
    WrittenWithinCost(Token(m.token));
    WrittenWithinCost(Data(Num(b.result)));
    FullText(b.info.version);
    FullText(b.info.vendor);
    FullText(b.info.deviceType);
    FullText(b.info.deviceId);
    assert Pow16(5) == 0x10_0000;
    HexLength(m.token, 5);
    DecTen(b.result % WORD);
  }

  lemma HeadLength(m: Msg)
    ensures |Flat([Sep(STX), Token(m.token), Sep(FS), Type(TypeOf(m.body)), Sep(FS)])| == |PrintHex(m.token)| + 5
  {
    hide Flat, PrintHex, TypeOf;
    var a, b, c, d, e := Sep(STX), Token(m.token), Sep(FS), Type(TypeOf(m.body)), Sep(FS);
    assert [a] + [b] + [c] + [d] + [e] == [a, b, c, d, e];
    FlatConcat([a] + [b] + [c] + [d], [e]);
    FlatConcat([a] + [b] + [c], [d]);
    FlatConcat([a] + [b], [c]);
    FlatConcat([a], [b]);
    FlatOne(a);
    FlatOne(b);
    FlatOne(c);
    FlatOne(d);
    FlatOne(e);
  }

  lemma FullText(a: seq<byte>)
    ensures |Text(a)| == |a| <==> 0 !in a
  {
    if |Text(a)| == |a| {
      assert Text(a) == a;
    } else {
      assert a[|Text(a)|] in a;
    }
  }

  lemma DecTen(n: nat)
    requires n < WORD
    ensures |PrintDec(n)| == 10 <==> n >= 1_000_000_000
  {
    if n < 1_000_000_000 {
      assert Pow10(9) == 1_000_000_000;
      DecLength(n, 9, 1_000_000_000);
    } else {
      assert Pow10(10) == 10_000_000_000;
      DecLength(n, 10, 10_000_000_000);
      DecAtLeast(n, 10, 1_000_000_000);
    }
  }

  lemma {:induction false} DecAtLeast(n: nat, k: nat, bound: nat)
    requires k > 0 && bound == Pow10(k - 1) && n >= bound
    ensures |PrintDec(n)| >= k
    decreases k
  {
    if k > 1 {
      assert bound == 10 * Pow10(k - 2);
      PowPositive(k - 2);
      DecAtLeast(n / 10, k - 1, Pow10(k - 2));
    }
  }

  lemma {:induction false} PowPositive(k: nat)
    ensures Pow10(k) >= 1
  {
    if k > 0 {
      PowPositive(k - 1);
    }
  }
}
