/** In which order the fields of a body stand in the bytes that are written, type by type. */
module Layout {
  import opened Bytes
  import opened Numerals
  import opened Message
  import opened Cutting
  import Serialization

  /** The texts of values that are written. */
  function Contents(vs: seq<Value>): (ts: seq<seq<byte>>)
    ensures |ts| == |vs|
  {
    seq(|vs|, k requires 0 <= k < |vs| => Content(vs[k]))
  }

  /** The bytes are these values, in this order, with the separator behind each. */
  predicate AreFields(ps: seq<Part>, sep: byte, vs: seq<Value>) {
    Flat(ps) == Lines(sep, Contents(vs))
  }

  lemma OneField(v: Value)
    ensures AreFields(F(v), FS, [v]) && AreFields(U(v), US, [v])
  {
    hide Flat, Content;
    assert F(v) == [Data(v)] + [Sep(FS)] && U(v) == [Data(v)] + [Sep(US)];
    FlatConcat([Data(v)], [Sep(FS)]);
    FlatConcat([Data(v)], [Sep(US)]);
    Serialization.FlatOne(Data(v));
    Serialization.FlatOne(Sep(FS));
    Serialization.FlatOne(Sep(US));
    assert Contents([v]) == [] + [Content(v)];
    LinesSnoc(FS, [], Content(v));
    LinesSnoc(US, [], Content(v));
  }

  lemma Behind(ps: seq<Part>, sep: byte, vs: seq<Value>, qs: seq<Part>, ws: seq<Value>)
    requires AreFields(ps, sep, vs) && AreFields(qs, sep, ws)
    ensures AreFields(ps + qs, sep, vs + ws)
  {
    hide Flat, Lines, Content;
    FlatConcat(ps, qs);
    LinesConcat(sep, Contents(vs), Contents(ws));
    assert Contents(vs + ws) == Contents(vs) + Contents(ws);
  }

  lemma Two(a: Value, b: Value)
    ensures AreFields(F(a) + F(b), FS, [a, b]) && AreFields(U(a) + U(b), US, [a, b])
  {
    hide AreFields, F, U;
    OneField(a);
    OneField(b);
    Behind(F(a), FS, [a], F(b), [b]);
    Behind(U(a), US, [a], U(b), [b]);
    assert [a] + [b] == [a, b];
  }

  lemma Three(a: Value, b: Value, c: Value)
    ensures AreFields(F(a) + F(b) + F(c), FS, [a, b, c]) && AreFields(U(a) + U(b) + U(c), US, [a, b, c])
  {
    hide AreFields, F, U;
    Two(a, b);
    OneField(c);
    Behind(F(a) + F(b), FS, [a, b], F(c), [c]);
    Behind(U(a) + U(b), US, [a, b], U(c), [c]);
    assert [a, b] + [c] == [a, b, c];
  }

  lemma Four(a: Value, b: Value, c: Value, d: Value)
    ensures AreFields(F(a) + F(b) + F(c) + F(d), FS, [a, b, c, d])
    ensures AreFields(U(a) + U(b) + U(c) + U(d), US, [a, b, c, d])
  {
    hide AreFields, F, U;
    Three(a, b, c);
    OneField(d);
    Behind(F(a) + F(b) + F(c), FS, [a, b, c], F(d), [d]);
    Behind(U(a) + U(b) + U(c), US, [a, b, c], U(d), [d]);
    assert [a, b, c] + [d] == [a, b, c, d];
  }

  lemma Five(a: Value, b: Value, c: Value, d: Value, e: Value)
    ensures AreFields(F(a) + F(b) + F(c) + F(d) + F(e), FS, [a, b, c, d, e])
    ensures AreFields(U(a) + U(b) + U(c) + U(d) + U(e), US, [a, b, c, d, e])
  {
    hide AreFields, F, U;
    Four(a, b, c, d);
    OneField(e);
    Behind(F(a) + F(b) + F(c) + F(d), FS, [a, b, c, d], F(e), [e]);
    Behind(U(a) + U(b) + U(c) + U(d), US, [a, b, c, d], U(e), [e]);
    assert [a, b, c, d] + [e] == [a, b, c, d, e];
  }

  lemma InfoInOrder(i: DeviceInfo)
    ensures AreFields(InfoParts(i), FS, [Str(i.version), Str(i.vendor), Str(i.deviceType), Str(i.deviceId)])
  {
    hide AreFields, F;
    Four(Str(i.version), Str(i.vendor), Str(i.deviceType), Str(i.deviceId));
  }

  /** Every body but that of a T4 or D5 is one row, each field closed by FS, or empty. */
  lemma RowInOrder(b: Body)
    ensures match b
            case BodyT2(i) =>
              AreFields(BodyParts(b), FS, [Str(i.version), Str(i.vendor), Str(i.deviceType), Str(i.deviceId)])
            case BodyB1(i) =>
              AreFields(BodyParts(b), FS, [Str(i.version), Str(i.vendor), Str(i.deviceType), Str(i.deviceId)])
            case BodyT5(v) => AreFields(BodyParts(b), FS, [Str(v)])
            case BodyS1(s) =>
              AreFields(BodyParts(b), FS, [Trx(s.isVoid), Str(s.ecrId), Str(s.paymentId), Str(s.amountGross),
                                           Str(s.amountNet), Str(s.vat), Str(s.currency), Str(s.cashback),
                                           Str(s.maxCashback)])
            case BodyB2(i, result, modulus, exponent) =>
              AreFields(BodyParts(b), FS, [Str(i.version), Str(i.vendor), Str(i.deviceType), Str(i.deviceId),
                                           Num(result), Hex(modulus), Hex(exponent)])
            case BodyB3(kek, kcv) => AreFields(BodyParts(b), FS, [Hex(kek), Hex(kcv)])
            case BodyB4(result) => AreFields(BodyParts(b), FS, [Num(result)])
            case BodyK0(result, output) => AreFields(BodyParts(b), FS, [Num(result), Str(output)])
            case BodyI1(status, msg) => AreFields(BodyParts(b), FS, [Num(status), Str(msg)])
            case BodyA2(error, msg) => AreFields(BodyParts(b), FS, [Num(error), Str(msg)])
            case BodyS2(s) =>
              AreFields(BodyParts(b), FS, [Num(s.error), Hex(s.cardToken), Str(s.mid), Str(s.tid), Str(s.trxAmount),
                                           Str(s.cashback), Str(s.paymentMethod), Str(s.msg)])
            case BodyT4(_) => true
            case BodyD5(_) => true
            case _ => Flat(BodyParts(b)) == []
  {
    hide AreFields, F, InfoParts;
    match b
    case BodyT2(i) => InfoInOrder(i);
    case BodyB1(i) => InfoInOrder(i);
    case BodyT5(v) => OneField(Str(v));
    case BodyS1(s) =>
      var x := [Trx(s.isVoid), Str(s.ecrId), Str(s.paymentId), Str(s.amountGross), Str(s.amountNet)];
      var y := [Str(s.vat), Str(s.currency), Str(s.cashback), Str(s.maxCashback)];
      Five(x[0], x[1], x[2], x[3], x[4]);
      Four(y[0], y[1], y[2], y[3]);
      Behind(SaleParts(s), FS, x, MoneyParts(s), y);
      assert x + y == [x[0], x[1], x[2], x[3], x[4], y[0], y[1], y[2], y[3]];
    case BodyB2(i, result, modulus, exponent) =>
      var x, y := [Str(i.version), Str(i.vendor), Str(i.deviceType), Str(i.deviceId)],
                  [Num(result), Hex(modulus), Hex(exponent)];
      InfoInOrder(i);
      Three(y[0], y[1], y[2]);
      Behind(InfoParts(i), FS, x, F(y[0]) + F(y[1]) + F(y[2]), y);
      assert x + y == [x[0], x[1], x[2], x[3], y[0], y[1], y[2]];
    case BodyB3(kek, kcv) => Two(Hex(kek), Hex(kcv));
    case BodyB4(result) => OneField(Num(result));
    case BodyK0(result, output) => Two(Num(result), Str(output));
    case BodyI1(status, msg) => Two(Num(status), Str(msg));
    case BodyA2(error, msg) => Two(Num(error), Str(msg));
    case BodyS2(s) =>
      var x := [Num(s.error), Hex(s.cardToken), Str(s.mid), Str(s.tid)];
      var y := [Str(s.trxAmount), Str(s.cashback), Str(s.paymentMethod), Str(s.msg)];
      Four(x[0], x[1], x[2], x[3]);
      Four(y[0], y[1], y[2], y[3]);
      var p, q := F(x[0]) + F(x[1]) + F(x[2]) + F(x[3]), F(y[0]) + F(y[1]) + F(y[2]) + F(y[3]);
      Behind(p, FS, x, q, y);
      assert x + y == [x[0], x[1], x[2], x[3], y[0], y[1], y[2], y[3]];
      assert BodyParts(b) == p + q;
    case BodyT4(_) =>
    case BodyD5(_) =>
    case _ => assert BodyParts(b) == [];
  }

  /** A D5 is sixteen numbers, nine key names with US behind each, a lone FS, and five codes. */
  lemma ParametersInOrder(d: D5)
    ensures Flat(BodyParts(BodyD5(d)))
         == Lines(FS, Contents([Num(d.printerCpl), Num(d.printerCpl2x), Num(d.printerCpl4x), Num(d.printerCpln),
                                Bool(d.printerH2), Bool(d.printerH4), Bool(d.printerInv),
                                Num(d.maxBarcodeLength), Num(d.maxQrcodeLength), Num(d.maxBitmapCount),
                                Num(d.maxBitmapWidth), Num(d.maxBitmapHeight),
                                Num(d.aspectRatio), Num(d.bufferMaxLines), Num(d.displayLc), Num(d.displayCpl)]))
            + Lines(US, Contents([Str(d.keyName.enter), Str(d.keyName.cancel), Str(d.keyName.check),
                                  Str(d.keyName.backspace), Str(d.keyName.delete), Str(d.keyName.up),
                                  Str(d.keyName.down), Str(d.keyName.left), Str(d.keyName.right)]))
            + [FS]
            + Lines(FS, Contents([Num(d.deviceTopo), Bool(d.nfc), Bool(d.ccr), Bool(d.mcr), Bool(d.bar)]))
  {
    hide AreFields, F, U, Flat, Lines, Contents, Content, Bool, WidthParts, StyleParts, BitmapParts, DisplayParts,
         KeyParts, ArrowParts, DeviceParts;
    NumbersInOrder(d);
    KeysInOrder(d.keyName);
    DeviceInOrder(d);
    var x, y, z := WidthParts(d) + StyleParts(d) + BitmapParts(d) + DisplayParts(d),
                   KeyParts(d.keyName) + ArrowParts(d.keyName), DeviceParts(d);
    assert BodyParts(BodyD5(d)) == x + y + z;
    FlatConcat(x + y, z);
    FlatConcat(x, y);
  }

  lemma NumbersInOrder(d: D5)
    ensures Flat(WidthParts(d) + StyleParts(d) + BitmapParts(d) + DisplayParts(d))
         == Lines(FS, Contents([Num(d.printerCpl), Num(d.printerCpl2x), Num(d.printerCpl4x), Num(d.printerCpln),
                                Bool(d.printerH2), Bool(d.printerH4), Bool(d.printerInv),
                                Num(d.maxBarcodeLength), Num(d.maxQrcodeLength), Num(d.maxBitmapCount),
                                Num(d.maxBitmapWidth), Num(d.maxBitmapHeight),
                                Num(d.aspectRatio), Num(d.bufferMaxLines), Num(d.displayLc), Num(d.displayCpl)]))
  {
    hide F, U, Flat, Lines, Contents, Bool;
    var a := [Num(d.printerCpl), Num(d.printerCpl2x), Num(d.printerCpl4x), Num(d.printerCpln)];
    var b := [Bool(d.printerH2), Bool(d.printerH4), Bool(d.printerInv)];
    var c := [Num(d.maxBarcodeLength), Num(d.maxQrcodeLength), Num(d.maxBitmapCount), Num(d.maxBitmapWidth),
              Num(d.maxBitmapHeight)];
    var e := [Num(d.aspectRatio), Num(d.bufferMaxLines), Num(d.displayLc), Num(d.displayCpl)];
    Four(a[0], a[1], a[2], a[3]);
    Three(b[0], b[1], b[2]);
    Five(c[0], c[1], c[2], c[3], c[4]);
    Four(e[0], e[1], e[2], e[3]);
    Behind(WidthParts(d), FS, a, StyleParts(d), b);
    Behind(WidthParts(d) + StyleParts(d), FS, a + b, BitmapParts(d), c);
    Behind(WidthParts(d) + StyleParts(d) + BitmapParts(d), FS, a + b + c, DisplayParts(d), e);
    assert a + b + c + e == [a[0], a[1], a[2], a[3], b[0], b[1], b[2], c[0], c[1], c[2], c[3], c[4],
                             e[0], e[1], e[2], e[3]];
  }

  lemma KeysInOrder(k: KeyNames)
    ensures Flat(KeyParts(k) + ArrowParts(k))
         == Lines(US, Contents([Str(k.enter), Str(k.cancel), Str(k.check), Str(k.backspace), Str(k.delete),
                                Str(k.up), Str(k.down), Str(k.left), Str(k.right)])) + [FS]
  {
    hide F, U, Flat, Lines, Contents;
    var a := [Str(k.enter), Str(k.cancel), Str(k.check), Str(k.backspace), Str(k.delete)];
    var b := [Str(k.up), Str(k.down), Str(k.left), Str(k.right)];
    var p := U(b[0]) + U(b[1]) + U(b[2]) + U(b[3]);
    Five(a[0], a[1], a[2], a[3], a[4]);
    Four(b[0], b[1], b[2], b[3]);
    Behind(KeyParts(k), US, a, p, b);
    assert a + b == [a[0], a[1], a[2], a[3], a[4], b[0], b[1], b[2], b[3]];
    assert KeyParts(k) + ArrowParts(k) == KeyParts(k) + p + [Sep(FS)];
    FlatConcat(KeyParts(k) + p, [Sep(FS)]);
    Serialization.FlatByte(FS);
  }

  lemma DeviceInOrder(d: D5)
    ensures Flat(DeviceParts(d))
         == Lines(FS, Contents([Num(d.deviceTopo), Bool(d.nfc), Bool(d.ccr), Bool(d.mcr), Bool(d.bar)]))
  {
    hide F, U, Flat, Lines, Contents, Bool;
    Five(Num(d.deviceTopo), Bool(d.nfc), Bool(d.ccr), Bool(d.mcr), Bool(d.bar));
  }
}
