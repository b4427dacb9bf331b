/** What a caller can check of a message before writing it, field by field. */
module Conditions {
  import opened Bytes
  import opened Numerals
  import opened Message
  import opened FieldMachine
  import opened Bodies
  import opened Rows
  import opened Fields

  // ----- a predicate on every field of a row

  type Check = (Rule, Value) -> bool

  ghost predicate Every(P: Check, g: seq<Rule>, vs: seq<Value>) {
    |g| == |vs| && forall k | 0 <= k < |g| :: P(g[k], vs[k])
  }

  lemma EveryConcat(P: Check, g: seq<Rule>, vs: seq<Value>, g': seq<Rule>, vs': seq<Value>)
    requires |g| == |vs| && |g'| == |vs'|
    ensures Every(P, g + g', vs + vs') <==> Every(P, g, vs) && Every(P, g', vs')
  {
    if Every(P, g + g', vs + vs') {
      forall k | 0 <= k < |g| ensures P(g[k], vs[k]) {
        assert (g + g')[k] == g[k] && (vs + vs')[k] == vs[k];
      }
      forall k | 0 <= k < |g'| ensures P(g'[k], vs'[k]) {
        assert (g + g')[|g| + k] == g'[k] && (vs + vs')[|g| + k] == vs'[k];
      }
    }
  }

  ghost predicate OnInfo(P: Check, i: DeviceInfo) {
    P(TextRule(4), Str(i.version)) && P(MaybeRule(20), Str(i.vendor))
    && P(MaybeRule(20), Str(i.deviceType)) && P(MaybeRule(20), Str(i.deviceId))
  }

  ghost predicate OnPrinter(P: Check, d: D5) {
    && P(NumberRule(0x100), Num(d.printerCpl)) && P(NumberRule(0x100), Num(d.printerCpl2x))
    && P(NumberRule(0x100), Num(d.printerCpl4x)) && P(NumberRule(0x100), Num(d.printerCpln))
    && P(FlagRule(), Bool(d.printerH2)) && P(FlagRule(), Bool(d.printerH4)) && P(FlagRule(), Bool(d.printerInv))
  }

  ghost predicate OnLimits(P: Check, d: D5) {
    && P(NumberRule(0x1_0000), Num(d.maxBarcodeLength)) && P(NumberRule(0x1_0000), Num(d.maxQrcodeLength))
    && P(NumberRule(0x1_0000), Num(d.maxBitmapCount)) && P(NumberRule(0x1_0000), Num(d.maxBitmapWidth))
    && P(NumberRule(0x1_0000), Num(d.maxBitmapHeight))
    && P(NumberRule(0x1_0000), Num(d.aspectRatio)) && P(NumberRule(0x1_0000), Num(d.bufferMaxLines))
    && P(NumberRule(0x100), Num(d.displayLc)) && P(NumberRule(0x100), Num(d.displayCpl))
  }

  ghost predicate OnKeys(P: Check, k: KeyNames) {
    && P(AnyRule(16, US), Str(k.enter)) && P(AnyRule(16, US), Str(k.cancel)) && P(AnyRule(16, US), Str(k.check))
    && P(AnyRule(16, US), Str(k.backspace)) && P(AnyRule(16, US), Str(k.delete))
    && P(AnyRule(16, US), Str(k.up)) && P(AnyRule(16, US), Str(k.down))
    && P(AnyRule(16, US), Str(k.left)) && P(AnyRule(16, US), Str(k.right)) && P(LoneRule(), Str([]))
  }

  ghost predicate OnDevice(P: Check, d: D5) {
    && P(TopologyRule(), Num(d.deviceTopo))
    && P(FlagRule(), Bool(d.nfc)) && P(FlagRule(), Bool(d.ccr)) && P(FlagRule(), Bool(d.mcr))
    && P(FlagRule(), Bool(d.bar))
  }

  ghost predicate OnSale(P: Check, s: S1) {
    && P(TrxRule(), Trx(s.isVoid)) && P(TextRule(20), Str(s.ecrId)) && P(TextRule(20), Str(s.paymentId))
    && P(AmountRule(1), Str(s.amountGross)) && P(AmountRule(1), Str(s.amountNet)) && P(AmountRule(1), Str(s.vat))
    && P(CurrencyRule(), Str(s.currency)) && P(AmountRule(1), Str(s.cashback)) && P(AmountRule(1), Str(s.maxCashback))
  }

  ghost predicate OnBody(P: Check, b: Body)
    requires HasRow(b)
  {
    match b
    case BodyT2(info) => OnInfo(P, info)
    case BodyT5(v) => P(TextRule(4), Str(v))
    case BodyD5(d) => OnPrinter(P, d) && OnLimits(P, d) && OnKeys(P, d.keyName) && OnDevice(P, d)
    case BodyS1(s) => OnSale(P, s)
    case BodyB1(info) => OnInfo(P, info)
    case BodyB2(info, result, modulus, exponent) =>
      && OnInfo(P, info) && P(NumberRule(LONG), Num(result))
      && P(HexRule(256), Hex(modulus)) && P(HexRule(3), Hex(exponent))
    case BodyB3(kek, kcv) => P(HexRule(256), Hex(kek)) && P(HexRule(3), Hex(kcv))
    case BodyB4(result) => P(NumberRule(LONG), Num(result))
    case BodyK0(result, output) => P(NumberRule(LONG), Num(result)) && P(AnyRule(100, FS), Str(output))
  }

  lemma EveryInfo(P: Check, i: DeviceInfo)
    ensures |InfoRules()| == |InfoValues(i)| && (Every(P, InfoRules(), InfoValues(i)) <==> OnInfo(P, i))
  {
    if Every(P, InfoRules(), InfoValues(i)) {
      assert P(InfoRules()[0], InfoValues(i)[0]) && P(InfoRules()[1], InfoValues(i)[1])
             && P(InfoRules()[2], InfoValues(i)[2]) && P(InfoRules()[3], InfoValues(i)[3]);
    }
  }

  lemma Every3(P: Check, g: seq<Rule>, vs: seq<Value>)
    requires |g| == |vs| == 3
    ensures Every(P, g, vs) <==> P(g[0], vs[0]) && P(g[1], vs[1]) && P(g[2], vs[2])
  {
  }

  lemma Every4(P: Check, g: seq<Rule>, vs: seq<Value>)
    requires |g| == |vs| == 4
    ensures Every(P, g, vs) <==> P(g[0], vs[0]) && P(g[1], vs[1]) && P(g[2], vs[2]) && P(g[3], vs[3])
  {
  }

  lemma Every5(P: Check, g: seq<Rule>, vs: seq<Value>)
    requires |g| == |vs| == 5
    ensures Every(P, g, vs) <==>
            P(g[0], vs[0]) && P(g[1], vs[1]) && P(g[2], vs[2]) && P(g[3], vs[3]) && P(g[4], vs[4])
  {
  }

  lemma EveryPrinter(P: Check, d: D5)
    ensures Every(P, WidthRules(), WidthValues(d)) && Every(P, StyleRules(), StyleValues(d)) <==> OnPrinter(P, d)
  {
    hide Every;
    Every4(P, WidthRules(), WidthValues(d));
    Every3(P, StyleRules(), StyleValues(d));
  }

  lemma EveryLimits(P: Check, d: D5)
    ensures Every(P, BitmapRules(), BitmapValues(d)) && Every(P, DisplayRules(), DisplayValues(d)) <==> OnLimits(P, d)
  {
    hide Every;
    Every5(P, BitmapRules(), BitmapValues(d));
    Every4(P, DisplayRules(), DisplayValues(d));
  }

  lemma EveryKeys(P: Check, k: KeyNames)
    ensures Every(P, KeyRules(), KeyValues(k)) && Every(P, ArrowRules(), ArrowValues(k)) <==> OnKeys(P, k)
  {
    hide Every;
    Every5(P, KeyRules(), KeyValues(k));
    Every5(P, ArrowRules(), ArrowValues(k));
  }

  lemma EveryDevice(P: Check, d: D5)
    ensures Every(P, DeviceRules(), DeviceValues(d)) <==> OnDevice(P, d)
  {
    hide Every;
    Every5(P, DeviceRules(), DeviceValues(d));
  }

  lemma EverySale(P: Check, s: S1)
    ensures Every(P, SaleRules() + MoneyRules(), SaleValues(s) + MoneyValues(s)) <==> OnSale(P, s)
  {
    hide Every;
    EveryConcat(P, SaleRules(), SaleValues(s), MoneyRules(), MoneyValues(s));
    Every5(P, SaleRules(), SaleValues(s));
    Every4(P, MoneyRules(), MoneyValues(s));
  }

  lemma D5Lengths(d: D5)
    ensures |WidthRules()| == |WidthValues(d)| && |StyleRules()| == |StyleValues(d)|
    ensures |BitmapRules()| == |BitmapValues(d)| && |DisplayRules()| == |DisplayValues(d)|
    ensures |KeyRules()| == |KeyValues(d.keyName)| && |ArrowRules()| == |ArrowValues(d.keyName)|
    ensures |DeviceRules()| == |DeviceValues(d)|
  {
  }

  lemma EveryD5(P: Check, d: D5)
    ensures Every(P, Row(BodyD5(d)), Values(BodyD5(d))) <==> OnBody(P, BodyD5(d))
  {
    hide Every, OnPrinter, OnLimits, OnKeys, OnDevice, WidthRules, StyleRules, BitmapRules, DisplayRules, KeyRules,
         ArrowRules, DeviceRules, WidthValues, StyleValues, BitmapValues, DisplayValues, KeyValues, ArrowValues,
         DeviceValues;
    D5Lengths(d);
    var g, v := WidthRules(), WidthValues(d);
    EveryConcat(P, g, v, StyleRules(), StyleValues(d));
    g, v := g + StyleRules(), v + StyleValues(d);
    EveryConcat(P, g, v, BitmapRules(), BitmapValues(d));
    g, v := g + BitmapRules(), v + BitmapValues(d);
    EveryConcat(P, g, v, DisplayRules(), DisplayValues(d));
    g, v := g + DisplayRules(), v + DisplayValues(d);
    EveryConcat(P, g, v, KeyRules(), KeyValues(d.keyName));
    g, v := g + KeyRules(), v + KeyValues(d.keyName);
    EveryConcat(P, g, v, ArrowRules(), ArrowValues(d.keyName));
    g, v := g + ArrowRules(), v + ArrowValues(d.keyName);
    EveryConcat(P, g, v, DeviceRules(), DeviceValues(d));
    EveryPrinter(P, d);
    EveryLimits(P, d);
    EveryKeys(P, d.keyName);
    EveryDevice(P, d);
  }

  /** The fields of a body, one by one. */
  lemma EveryField(P: Check, b: Body)
    requires HasRow(b)
    ensures Every(P, Row(b), Values(b)) <==> OnBody(P, b)
  {
    hide OnInfo, OnSale, InfoRules, InfoValues, SaleRules, SaleValues, MoneyRules, MoneyValues;
    match b
    case BodyT2(info) => EveryInfo(P, info);
    case BodyB1(info) => EveryInfo(P, info);
    case BodyD5(d) => EveryD5(P, d);
    case BodyS1(s) => EverySale(P, s);
    case BodyB2(info, result, modulus, exponent) =>
      EveryInfo(P, info);
      var g, vs := [NumberRule(LONG), HexRule(256), HexRule(3)], [Num(result), Hex(modulus), Hex(exponent)];
      EveryConcat(P, InfoRules(), InfoValues(info), g, vs);
      Every3(P, g, vs);
    case _ => EverySmall(P, b);
  }

  lemma EverySmall(P: Check, b: Body)
    requires b.BodyT5? || b.BodyB3? || b.BodyB4? || b.BodyK0?
    ensures Every(P, Row(b), Values(b)) <==> OnBody(P, b)
  {
    var g, vs := Row(b), Values(b);
    if Every(P, g, vs) {
      assert P(g[0], vs[0]) && P(g[|g| - 1], vs[|g| - 1]);
    }
  }

  // ----- the conditions, in the message's own terms

  /** All characters are printable. */
  predicate IsPlain(a: seq<byte>) {
    forall b | b in Text(a) :: 0x20 <= b < 0x7F
  }

  predicate IsDigits(a: seq<byte>) {
    forall b | b in Text(a) :: IsDigit(b)
  }

  predicate IsEmpty(a: seq<byte>) {
    Text(a) == []
  }

  predicate PlainInfo(i: DeviceInfo) {
    IsPlain(i.version) && IsPlain(i.vendor) && IsPlain(i.deviceType) && IsPlain(i.deviceId)
  }

  predicate PlainSale(s: S1) {
    && IsPlain(s.ecrId) && IsPlain(s.paymentId) && IsPlain(s.currency)
    && IsDigits(s.amountGross) && IsDigits(s.amountNet) && IsDigits(s.vat)
    && IsDigits(s.cashback) && IsDigits(s.maxCashback)
  }

  predicate PlainKeys(k: KeyNames) {
    && IsPlain(k.enter) && IsPlain(k.cancel) && IsPlain(k.check) && IsPlain(k.backspace) && IsPlain(k.delete)
    && IsPlain(k.up) && IsPlain(k.down) && IsPlain(k.left) && IsPlain(k.right)
  }

  /** Texts are printable, amounts are digits. */
  predicate Plain(b: Body)
    requires HasRow(b) || IsBare(b)
  {
    match b
    case BodyT2(info) => PlainInfo(info)
    case BodyT5(v) => IsPlain(v)
    case BodyD5(d) => PlainKeys(d.keyName)
    case BodyS1(s) => PlainSale(s)
    case BodyB1(info) => PlainInfo(info)
    case BodyB2(info, _, _, _) => PlainInfo(info)
    case BodyK0(_, output) => IsPlain(output)
    case _ => true
  }

  /** Nothing is empty that the reader insists on. */
  predicate Filled(b: Body)
    requires HasRow(b) || IsBare(b)
  {
    match b
    case BodyT2(info) => !IsEmpty(info.version)
    case BodyT5(v) => !IsEmpty(v)
    case BodyS1(s) =>
      && !IsEmpty(s.ecrId) && !IsEmpty(s.paymentId)
      && !IsEmpty(s.amountGross) && !IsEmpty(s.amountNet) && !IsEmpty(s.vat)
      && !IsEmpty(s.cashback) && !IsEmpty(s.maxCashback) && |Text(s.currency)| == 3
    case BodyB1(info) => !IsEmpty(info.version)
    case BodyB2(info, _, _, _) => !IsEmpty(info.version)
    case _ => true
  }

  predicate PaddedInfo(i: DeviceInfo) {
    IsPadded(i.version) && IsPadded(i.vendor) && IsPadded(i.deviceType) && IsPadded(i.deviceId)
  }

  predicate PaddedSale(s: S1) {
    && IsPadded(s.ecrId) && IsPadded(s.paymentId) && IsPadded(s.currency)
    && IsPadded(s.amountGross) && IsPadded(s.amountNet) && IsPadded(s.vat)
    && IsPadded(s.cashback) && IsPadded(s.maxCashback)
  }

  /** A key name that the reader gives back. */
  predicate IsName(a: seq<byte>) {
    IsPadded(a) && !IsEmpty(a)
  }

  predicate NamedKeys(k: KeyNames) {
    && IsName(k.enter) && IsName(k.cancel) && IsName(k.check) && IsName(k.backspace) && IsName(k.delete)
    && IsName(k.up) && IsName(k.down) && IsName(k.left) && IsName(k.right)
  }

  /** Arrays are padded with NUL, key names and the K0 output are not empty (the reader would copy the
      field before it), and results fit into 32 bits. */
  predicate Restorable(b: Body)
    requires HasRow(b) || IsBare(b)
  {
    match b
    case BodyT2(info) => PaddedInfo(info)
    case BodyT5(v) => IsPadded(v)
    case BodyD5(d) => NamedKeys(d.keyName)
    case BodyS1(s) => PaddedSale(s)
    case BodyB1(info) => PaddedInfo(info)
    case BodyB2(info, result, _, _) => PaddedInfo(info) && result < WORD
    case BodyB4(result) => result < WORD
    case BodyK0(result, output) => result < WORD && IsName(output)
    case _ => true
  }

  /** No text holds a separator. */
  predicate IsWhole(a: seq<byte>) {
    forall b | b in Text(a) :: !IsSeparator(b)
  }

  predicate WholeInfo(i: DeviceInfo) {
    IsWhole(i.version) && IsWhole(i.vendor) && IsWhole(i.deviceType) && IsWhole(i.deviceId)
  }

  predicate WholeSale(s: S1) {
    && IsWhole(s.ecrId) && IsWhole(s.paymentId) && IsWhole(s.currency)
    && IsWhole(s.amountGross) && IsWhole(s.amountNet) && IsWhole(s.vat)
    && IsWhole(s.cashback) && IsWhole(s.maxCashback)
  }

  predicate WholeKeys(k: KeyNames) {
    && IsWhole(k.enter) && IsWhole(k.cancel) && IsWhole(k.check) && IsWhole(k.backspace) && IsWhole(k.delete)
    && IsWhole(k.up) && IsWhole(k.down) && IsWhole(k.left) && IsWhole(k.right)
  }

  predicate Whole(b: Body)
    requires HasRow(b) || IsBare(b)
  {
    match b
    case BodyT2(info) => WholeInfo(info)
    case BodyT5(v) => IsWhole(v)
    case BodyD5(d) => WholeKeys(d.keyName)
    case BodyS1(s) => WholeSale(s)
    case BodyB1(info) => WholeInfo(info)
    case BodyB2(info, _, _, _) => WholeInfo(info)
    case BodyK0(_, output) => IsWhole(output)
    case _ => true
  }

  lemma RulesAreWellMade()
    ensures WellMade(TextRule(4)) && WellMade(TextRule(20)) && WellMade(MaybeRule(20))
    ensures WellMade(AnyRule(16, US)) && WellMade(AnyRule(100, FS)) && WellMade(AmountRule(1))
            && WellMade(CurrencyRule())
    ensures WellMade(NumberRule(LONG)) && WellMade(NumberRule(0x100)) && WellMade(NumberRule(0x1_0000))
    ensures WellMade(HexRule(3)) && WellMade(HexRule(256)) && WellMade(FlagRule())
    ensures WellMade(LoneRule()) && WellMade(TopologyRule()) && WellMade(TrxRule())
  {
  }

  // ----- what belongs to its field

  lemma InfoFits(i: DeviceInfo)
    requires InfoSized(i)
    ensures OnInfo(Fits, i)
  {
  }

  lemma PrinterFits(d: D5)
    requires D5Sized(d)
    ensures OnPrinter(Fits, d) && OnLimits(Fits, d) && OnDevice(Fits, d)
  {
  }

  lemma KeysFit(k: KeyNames)
    requires |k.enter| == |k.cancel| == |k.check| == |k.backspace| == |k.delete| == 16
    requires |k.up| == |k.down| == |k.left| == |k.right| == 16
    ensures OnKeys(Fits, k)
  {
  }

  lemma SaleFits(s: S1)
    requires Sized(BodyS1(s))
    ensures OnSale(Fits, s)
  {
  }

  lemma BodyFits(b: Body)
    requires HasRow(b) && Sized(b)
    ensures OnBody(Fits, b)
  {
    hide OnInfo, OnSale, OnKeys, OnPrinter, OnLimits, OnDevice, InfoSized;
    match b
    case BodyT2(info) => InfoFits(info);
    case BodyB1(info) => InfoFits(info);
    case BodyD5(d) =>
      PrinterFits(d);
      KeysFit(d.keyName);
    case BodyS1(s) => SaleFits(s);
    case BodyB2(info, _, _, _) => InfoFits(info);
    case _ =>
  }

  // ----- what its field may hold

  lemma PlainHolds(a: seq<byte>, width: nat)
    ensures Holds(TextRule(width), Str(a)) <==> IsPlain(a)
    ensures Holds(MaybeRule(width), Str(a)) <==> IsPlain(a)
    ensures Holds(AnyRule(width, FS), Str(a)) <==> IsPlain(a)
    ensures Holds(AnyRule(width, US), Str(a)) <==> IsPlain(a)
    ensures |a| == 3 ==> (Holds(CurrencyRule(), Str(a)) <==> IsPlain(a))
    ensures Holds(AmountRule(1), Str(a)) <==> IsDigits(a)
  {
  }

  lemma OtherValuesHold(n: nat, b: bool, d: nat, bs: seq<byte>)
    requires d < 4
    ensures Holds(NumberRule(0x100), Num(n)) && Holds(NumberRule(0x1_0000), Num(n)) && Holds(NumberRule(LONG), Num(n))
    ensures Holds(FlagRule(), Bool(b)) && Holds(TrxRule(), Trx(b)) && Holds(TopologyRule(), Num(d))
    ensures Holds(HexRule(256), Hex(bs)) && Holds(HexRule(3), Hex(bs)) && Holds(LoneRule(), Str([]))
  {
    hide PrintDec, HexBytes;
    DecRoundTrip(n % WORD);
    DigitText(if b then 1 else 0);
    DigitText(d);
    BytesRoundTrip(bs);
  }

  lemma InfoHolds(i: DeviceInfo)
    ensures OnInfo(Holds, i) <==> PlainInfo(i)
  {
    hide Holds, IsPlain, TextRule, MaybeRule;
    PlainHolds(i.version, 4);
    PlainHolds(i.vendor, 20);
    PlainHolds(i.deviceType, 20);
    PlainHolds(i.deviceId, 20);
  }

  lemma PrinterHolds(d: D5)
    requires d.deviceTopo < 4
    ensures OnPrinter(Holds, d) && OnDevice(Holds, d)
  {
    hide Holds, NumberRule, FlagRule, TopologyRule, Bool;
    OtherValuesHold(d.printerCpl, d.printerH2, d.deviceTopo, []);
    OtherValuesHold(d.printerCpl2x, d.printerH4, d.deviceTopo, []);
    OtherValuesHold(d.printerCpl4x, d.printerInv, d.deviceTopo, []);
    OtherValuesHold(d.printerCpln, d.nfc, d.deviceTopo, []);
    OtherValuesHold(0, d.ccr, d.deviceTopo, []);
    OtherValuesHold(0, d.mcr, d.deviceTopo, []);
    OtherValuesHold(0, d.bar, d.deviceTopo, []);
  }

  lemma LimitsHold(d: D5)
    ensures OnLimits(Holds, d)
  {
    hide Holds, NumberRule;
    OtherValuesHold(d.maxBarcodeLength, false, 0, []);
    OtherValuesHold(d.maxQrcodeLength, false, 0, []);
    OtherValuesHold(d.maxBitmapCount, false, 0, []);
    OtherValuesHold(d.maxBitmapWidth, false, 0, []);
    OtherValuesHold(d.maxBitmapHeight, false, 0, []);
    OtherValuesHold(d.aspectRatio, false, 0, []);
    OtherValuesHold(d.bufferMaxLines, false, 0, []);
    OtherValuesHold(d.displayLc, false, 0, []);
    OtherValuesHold(d.displayCpl, false, 0, []);
  }

  lemma KeysHold(k: KeyNames)
    ensures OnKeys(Holds, k) <==> PlainKeys(k)
  {
    hide Holds, IsPlain, AnyRule, LoneRule;
    OtherValuesHold(0, false, 0, []);
    PlainHolds(k.enter, 16);
    PlainHolds(k.cancel, 16);
    PlainHolds(k.check, 16);
    PlainHolds(k.backspace, 16);
    PlainHolds(k.delete, 16);
    PlainHolds(k.up, 16);
    PlainHolds(k.down, 16);
    PlainHolds(k.left, 16);
    PlainHolds(k.right, 16);
  }

  lemma SaleHolds(s: S1)
    requires |s.currency| == 3
    ensures OnSale(Holds, s) <==> PlainSale(s)
  {
    hide Holds, IsPlain, IsDigits, TextRule, AmountRule, CurrencyRule, TrxRule;
    OtherValuesHold(0, s.isVoid, 0, []);
    PlainHolds(s.ecrId, 20);
    PlainHolds(s.paymentId, 20);
    PlainHolds(s.currency, 3);
    PlainHolds(s.amountGross, 12);
    PlainHolds(s.amountNet, 12);
    PlainHolds(s.vat, 12);
    PlainHolds(s.cashback, 12);
    PlainHolds(s.maxCashback, 12);
  }

  lemma BodyHolds(b: Body)
    requires HasRow(b) && Sized(b)
    ensures OnBody(Holds, b) <==> Plain(b)
  {
    hide OnInfo, OnSale, OnKeys, OnPrinter, OnLimits, OnDevice, InfoSized, Holds, IsPlain, PlainInfo, PlainSale,
         PlainKeys, NumberRule, HexRule, TextRule, AnyRule;
    match b
    case BodyT2(info) => InfoHolds(info);
    case BodyB1(info) => InfoHolds(info);
    case BodyD5(d) =>
      PrinterHolds(d);
      LimitsHold(d);
      KeysHold(d.keyName);
    case BodyS1(s) => SaleHolds(s);
    case BodyT5(v) => PlainHolds(v, 4);
    case BodyB2(info, result, modulus, exponent) =>
      InfoHolds(info);
      OtherValuesHold(result, false, 0, modulus);
      OtherValuesHold(result, false, 0, exponent);
    case BodyB3(kek, kcv) =>
      OtherValuesHold(0, false, 0, kek);
      OtherValuesHold(0, false, 0, kcv);
    case BodyB4(result) => OtherValuesHold(result, false, 0, []);
    case BodyK0(result, output) =>
      OtherValuesHold(result, false, 0, []);
      PlainHolds(output, 100);
  }

  // ----- what holds no separators

  lemma TextApart(r: Rule, a: seq<byte>)
    ensures IsApart(r, Str(a)) <==> IsWhole(a)
  {
    NoSeparators(Text(a));
  }

  lemma OthersApart(r: Rule, v: Value)
    requires !v.Str? || v.chars == []
    ensures IsApart(r, v)
  {
    hide PrintDec, HexBytes;
    NoSeparators(Content(v));
    if v.Num? {
      DecRoundTrip(v.n % WORD);
    } else if v.Hex? {
      BytesRoundTrip(v.bytes);
    }
  }

  lemma EveryApart(b: Body)
    requires HasRow(b)
    ensures OnBody(IsApart, b) <==> Whole(b)
  {
    hide IsApart, IsWhole;
    forall r: Rule, v: Value | !v.Str? || v.chars == [] ensures IsApart(r, v) {
      OthersApart(r, v);
    }
    forall r: Rule, a: seq<byte> ensures IsApart(r, Str(a)) <==> IsWhole(a) {
      TextApart(r, a);
    }
  }

  // ----- which fields the reader passes

  lemma TextPasses(a: seq<byte>, width: nat)
    ensures Passes(TextRule(width), Str(a)) <==> !IsEmpty(a)
    ensures Passes(MaybeRule(width), Str(a))
    ensures Passes(AnyRule(width, FS), Str(a)) && Passes(AnyRule(width, US), Str(a))
    ensures Passes(AmountRule(1), Str(a)) <==> !IsEmpty(a)
    ensures Passes(CurrencyRule(), Str(a)) <==> |Text(a)| >= 3
  {
  }

  lemma OtherPasses(n: nat, b: bool, d: nat, bs: seq<byte>)
    requires d < 4
    ensures Passes(NumberRule(0x100), Num(n)) && Passes(NumberRule(0x1_0000), Num(n))
            && Passes(NumberRule(LONG), Num(n))
    ensures Passes(FlagRule(), Bool(b)) && Passes(TrxRule(), Trx(b)) && Passes(TopologyRule(), Num(d))
    ensures Passes(HexRule(256), Hex(bs)) && Passes(HexRule(3), Hex(bs)) && Passes(LoneRule(), Str([]))
  {
    hide PrintDec, HexBytes;
    DigitText(if b then 1 else 0);
    DigitText(d);
  }

  lemma InfoPasses(i: DeviceInfo)
    ensures OnInfo(Passes, i) <==> !IsEmpty(i.version)
  {
    hide Passes, IsEmpty, TextRule, MaybeRule;
    TextPasses(i.version, 4);
    TextPasses(i.vendor, 20);
    TextPasses(i.deviceType, 20);
    TextPasses(i.deviceId, 20);
  }

  lemma PrinterPasses(d: D5)
    requires d.deviceTopo < 4
    ensures OnPrinter(Passes, d) && OnDevice(Passes, d)
  {
    hide Passes, NumberRule, FlagRule, TopologyRule, Bool;
    OtherPasses(d.printerCpl, d.printerH2, d.deviceTopo, []);
    OtherPasses(d.printerCpl2x, d.printerH4, d.deviceTopo, []);
    OtherPasses(d.printerCpl4x, d.printerInv, d.deviceTopo, []);
    OtherPasses(d.printerCpln, d.nfc, d.deviceTopo, []);
    OtherPasses(0, d.ccr, d.deviceTopo, []);
    OtherPasses(0, d.mcr, d.deviceTopo, []);
    OtherPasses(0, d.bar, d.deviceTopo, []);
  }

  lemma LimitsPass(d: D5)
    ensures OnLimits(Passes, d)
  {
    hide Passes, NumberRule;
    OtherPasses(d.maxBarcodeLength, false, 0, []);
    OtherPasses(d.maxQrcodeLength, false, 0, []);
    OtherPasses(d.maxBitmapCount, false, 0, []);
    OtherPasses(d.maxBitmapWidth, false, 0, []);
    OtherPasses(d.maxBitmapHeight, false, 0, []);
    OtherPasses(d.aspectRatio, false, 0, []);
    OtherPasses(d.bufferMaxLines, false, 0, []);
    OtherPasses(d.displayLc, false, 0, []);
    OtherPasses(d.displayCpl, false, 0, []);
  }

  lemma KeysPass(k: KeyNames)
    ensures OnKeys(Passes, k)
  {
    hide Passes, AnyRule, LoneRule;
    OtherPasses(0, false, 0, []);
    TextPasses(k.enter, 16);
    TextPasses(k.cancel, 16);
    TextPasses(k.check, 16);
    TextPasses(k.backspace, 16);
    TextPasses(k.delete, 16);
    TextPasses(k.up, 16);
    TextPasses(k.down, 16);
    TextPasses(k.left, 16);
    TextPasses(k.right, 16);
  }

  lemma SalePasses(s: S1)
    requires |s.currency| == 3
    ensures OnSale(Passes, s) <==> Filled(BodyS1(s))
  {
    hide Passes, IsEmpty, TextRule, AmountRule, CurrencyRule, TrxRule;
    OtherPasses(0, s.isVoid, 0, []);
    TextPasses(s.ecrId, 20);
    TextPasses(s.paymentId, 20);
    TextPasses(s.currency, 3);
    TextPasses(s.amountGross, 12);
    TextPasses(s.amountNet, 12);
    TextPasses(s.vat, 12);
    TextPasses(s.cashback, 12);
    TextPasses(s.maxCashback, 12);
  }

  lemma BodyPasses(b: Body)
    requires HasRow(b) && Sized(b)
    ensures OnBody(Passes, b) <==> Filled(b)
  {
    hide OnInfo, OnSale, OnKeys, OnPrinter, OnLimits, OnDevice, InfoSized, Passes, IsEmpty, NumberRule, HexRule,
         TextRule, AnyRule;
    match b
    case BodyT2(info) => InfoPasses(info);
    case BodyB1(info) => InfoPasses(info);
    case BodyD5(d) =>
      PrinterPasses(d);
      LimitsPass(d);
      KeysPass(d.keyName);
    case BodyS1(s) => SalePasses(s);
    case BodyT5(v) => TextPasses(v, 4);
    case BodyB2(info, result, modulus, exponent) =>
      InfoPasses(info);
      OtherPasses(result, false, 0, modulus);
      OtherPasses(result, false, 0, exponent);
    case BodyB3(kek, kcv) =>
      OtherPasses(0, false, 0, kek);
      OtherPasses(0, false, 0, kcv);
    case BodyB4(result) => OtherPasses(result, false, 0, []);
    case BodyK0(result, output) =>
      OtherPasses(result, false, 0, []);
      TextPasses(output, 100);
  }

  // ----- which fields it restores

  lemma InfoKept(i: DeviceInfo)
    requires !IsEmpty(i.version)
    ensures OnInfo(Keeps, i) <==> PaddedInfo(i)
  {
    hide IsPadded;
  }

  lemma D5Kept(d: D5)
    requires D5Sized(d)
    ensures OnPrinter(Keeps, d) && OnLimits(Keeps, d) && OnDevice(Keeps, d)
    ensures OnKeys(Keeps, d.keyName) <==> NamedKeys(d.keyName)
  {
    hide IsPadded, Text;
    assert Keeps(LoneRule(), Str([]));
    KeysKept(d.keyName);
  }

  lemma KeysKept(k: KeyNames)
    ensures OnKeys(Keeps, k) <==> NamedKeys(k)
  {
    hide IsPadded, Text;
    assert Keeps(LoneRule(), Str([]));
  }

  lemma SaleKept(s: S1)
    requires Filled(BodyS1(s))
    ensures OnSale(Keeps, s) <==> PaddedSale(s)
  {
    hide IsPadded;
  }

  lemma BodyKept(b: Body)
    requires HasRow(b) && Sized(b) && Filled(b)
    ensures OnBody(Keeps, b) <==> Restorable(b)
  {
    hide OnInfo, OnSale, OnKeys, OnPrinter, OnLimits, OnDevice, InfoSized, D5Sized, IsPadded, Text, PaddedInfo,
         PaddedSale, NamedKeys;
    match b
    case BodyT2(info) => InfoKept(info);
    case BodyB1(info) => InfoKept(info);
    case BodyD5(d) => D5Kept(d);
    case BodyS1(s) => SaleKept(s);
    case BodyB2(info, _, _, _) => InfoKept(info);
    case _ =>
  }
}
