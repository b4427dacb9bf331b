/** Messages of frob.h, and the order in which serialization.c writes them. */
module Message {
  import opened Bytes
  import opened Numerals

  // ----- message types

  const FROB_T: int := 0x00
  const FROB_D: int := 0x10
  const FROB_S: int := 0x20
  const FROB_P: int := 0x30
  const FROB_I: int := 0x40
  const FROB_A: int := 0x50
  const FROB_K: int := 0x60
  const FROB_M: int := 0x70
  const FROB_L: int := 0x80
  const FROB_B: int := 0x90

  const FROB_LOCAL: int := 0x100
  const FROB_PAYMENT: int := 0x200
  const FROB_STORAGE: int := 0x300
  const FROB_MAPPED: int := 0x400
  const FROB_UI: int := 0x500

  const LOCAL_TYPES: set<int> :=
    {0x01, 0x02, 0x03, 0x04, 0x05, 0x14, 0x15, 0x10, 0x11, 0x12, 0x13, 0x81, 0x91, 0x92, 0x93, 0x94}
  const PAYMENT_TYPES: set<int> := {0x21, 0x22, 0x31, 0x41, 0x51, 0x52}
  const MAPPED_TYPES: set<int> := {0x16, 0x17, 0x18, 0x19, 0x1A}
  const UI_TYPES: set<int> := {0x60, 0x61, 0x62, 0x63, 0x64, 0x65, 0x66, 0x67, 0x68, 0x69}

  const FROB_T1: int := FROB_LOCAL + FROB_T + 0x1
  const FROB_T2: int := FROB_LOCAL + FROB_T + 0x2
  const FROB_T3: int := FROB_LOCAL + FROB_T + 0x3
  const FROB_T4: int := FROB_LOCAL + FROB_T + 0x4
  const FROB_T5: int := FROB_LOCAL + FROB_T + 0x5
  const FROB_D4: int := FROB_LOCAL + FROB_D + 0x4
  const FROB_D5: int := FROB_LOCAL + FROB_D + 0x5
  const FROB_S1: int := FROB_PAYMENT + FROB_S + 0x1
  const FROB_S2: int := FROB_PAYMENT + FROB_S + 0x2
  const FROB_P1: int := FROB_PAYMENT + FROB_P + 0x1
  const FROB_I1: int := FROB_PAYMENT + FROB_I + 0x1
  const FROB_A1: int := FROB_PAYMENT + FROB_A + 0x1
  const FROB_A2: int := FROB_PAYMENT + FROB_A + 0x2
  const FROB_B1: int := FROB_LOCAL + FROB_B + 0x1
  const FROB_B2: int := FROB_LOCAL + FROB_B + 0x2
  const FROB_B3: int := FROB_LOCAL + FROB_B + 0x3
  const FROB_B4: int := FROB_LOCAL + FROB_B + 0x4
  const FROB_K0: int := FROB_UI + FROB_K + 0x0
  const FROB_K1: int := FROB_UI + FROB_K + 0x1
  const FROB_DA: int := FROB_MAPPED + FROB_D + 0xA
  const FROB_M1: int := FROB_STORAGE + FROB_M + 0x1

  /** The enumerators of `enum FrobMessageType` that name a message. */
  predicate IsType(t: int) {
    || (FROB_LOCAL <= t < FROB_PAYMENT && t - FROB_LOCAL in LOCAL_TYPES)
    || (FROB_PAYMENT <= t < FROB_STORAGE && t - FROB_PAYMENT in PAYMENT_TYPES)
    || t == FROB_M1
    || (FROB_MAPPED <= t < FROB_UI && t - FROB_MAPPED in MAPPED_TYPES)
    || (FROB_UI <= t && t - FROB_UI in UI_TYPES)
  }

  type TypeCode = t: int | IsType(t) witness FROB_T1

  /** `class_to_char` on the class bits */
  function ClassToChar(t: TypeCode): byte {
    var c := t % 0x100 - t % 0x10;
    if c == FROB_T then 'T' as int
    else if c == FROB_D then 'D' as int
    else if c == FROB_S then 'S' as int
    else if c == FROB_P then 'P' as int
    else if c == FROB_I then 'I' as int
    else if c == FROB_A then 'A' as int
    else if c == FROB_K then 'K' as int
    else if c == FROB_M then 'M' as int
    else if c == FROB_L then 'L' as int
    else 'B' as int
  }

  /** `frob_type_to_string`: the number is added to '0', also when it is 10. */
  function TypeToString(t: TypeCode): (s: seq<byte>)
    ensures |s| == 2
  {
    [ClassToChar(t), t % 0x10 + 0x30]
  }

  /** `get_class` */
  function GetClass(c: byte): int {
    if c == 'T' as int then FROB_T
    else if c == 'D' as int then FROB_D
    else if c == 'S' as int then FROB_S
    else if c == 'P' as int then FROB_P
    else if c == 'I' as int then FROB_I
    else if c == 'A' as int then FROB_A
    else if c == 'K' as int then FROB_K
    else if c == 'M' as int then FROB_M
    else if c == 'L' as int then FROB_L
    else if c == 'B' as int then FROB_B
    else 0
  }

  /** `deserialize_type`: the switch finds the enumerator with these class and number bits, or gives 0. */
  function DeserializeType(cla: byte, sub: byte): int {
    var t := GetClass(cla) + Hex2Nibble(sub);
    if t in LOCAL_TYPES then t + FROB_LOCAL
    else if t in PAYMENT_TYPES then t + FROB_PAYMENT
    else if t in MAPPED_TYPES then t + FROB_MAPPED
    else if t in UI_TYPES then t + FROB_UI
    else if t == FROB_M1 - FROB_STORAGE then FROB_M1
    else 0
  }

  function Channel(t: TypeCode): int {
    if t < FROB_PAYMENT then FROB_LOCAL
    else if t < FROB_STORAGE then FROB_PAYMENT
    else if t < FROB_MAPPED then FROB_STORAGE
    else if t < FROB_UI then FROB_MAPPED
    else FROB_UI
  }

  /** A type code is its channel, its class and its number; only DA has a number above 9. */
  lemma CodeFacts(t: TypeCode)
    ensures var n := t % 0x10;
            && t % 0x100 == t - Channel(t)
            && t - Channel(t) - n in {FROB_T, FROB_D, FROB_S, FROB_P, FROB_I, FROB_A, FROB_K, FROB_M, FROB_L, FROB_B}
            && (if t == FROB_DA then n == 10 else n < 10)
  {
    assert IsType(t);
    CodeOfType(t, Channel(t));
  }

  lemma ClassRoundTrip(t: TypeCode)
    ensures GetClass(ClassToChar(t)) == t - Channel(t) - t % 0x10
  {
    hide IsType;
    CodeFacts(t);
  }

  /** Every type survives printing and reading, but DA, whose number prints as ':' and reads as D0. */
  lemma TypeRoundTrip(t: TypeCode)
    ensures var s := TypeToString(t);
            DeserializeType(s[0], s[1]) == t <==> t != FROB_DA
  {
    hide GetClass, ClassToChar;
    assert IsType(t);
    CodeFacts(t);
    ClassRoundTrip(t);
    assert Hex2Nibble(t % 0x10 + 0x30) == if t == FROB_DA then 0 else t % 0x10;
  }

  /** The names of the messages that are written. */
  lemma TypeNames()
    ensures TypeToString(FROB_T1) == ['T' as int, '1' as int] && TypeToString(FROB_T2) == ['T' as int, '2' as int]
    ensures TypeToString(FROB_T3) == ['T' as int, '3' as int] && TypeToString(FROB_T4) == ['T' as int, '4' as int]
    ensures TypeToString(FROB_T5) == ['T' as int, '5' as int] && TypeToString(FROB_D4) == ['D' as int, '4' as int]
    ensures TypeToString(FROB_D5) == ['D' as int, '5' as int] && TypeToString(FROB_S1) == ['S' as int, '1' as int]
    ensures TypeToString(FROB_S2) == ['S' as int, '2' as int] && TypeToString(FROB_P1) == ['P' as int, '1' as int]
    ensures TypeToString(FROB_I1) == ['I' as int, '1' as int] && TypeToString(FROB_A1) == ['A' as int, '1' as int]
    ensures TypeToString(FROB_A2) == ['A' as int, '2' as int] && TypeToString(FROB_B1) == ['B' as int, '1' as int]
    ensures TypeToString(FROB_B2) == ['B' as int, '2' as int] && TypeToString(FROB_B3) == ['B' as int, '3' as int]
    ensures TypeToString(FROB_B4) == ['B' as int, '4' as int] && TypeToString(FROB_K0) == ['K' as int, '0' as int]
    ensures TypeToString(FROB_K1) == ['K' as int, '1' as int] && TypeToString(FROB_DA) == ['D' as int, ':' as int]
  {
  }

  lemma CodeOfType(t: int, base: int)
    requires base in {0x100, 0x200, 0x300, 0x400, 0x500} && 0 <= t - base < 0x100
    ensures t % 0x100 == t - base && t % 0x10 == (t - base) % 0x10
  {
  }

  // ----- bodies

  /** Char arrays have the fixed length of their field. */
  datatype DeviceInfo = DeviceInfo(version: seq<byte>, vendor: seq<byte>, deviceType: seq<byte>, deviceId: seq<byte>)

  datatype KeyNames = KeyNames(enter: seq<byte>, cancel: seq<byte>, check: seq<byte>, backspace: seq<byte>,
                               delete: seq<byte>, up: seq<byte>, down: seq<byte>, left: seq<byte>, right: seq<byte>)

  datatype D5 = D5(displayLc: nat, displayCpl: nat,
                   printerCpl: nat, printerCpl2x: nat, printerCpl4x: nat, printerCpln: nat,
                   maxBarcodeLength: nat, maxQrcodeLength: nat, maxBitmapCount: nat, maxBitmapWidth: nat,
                   maxBitmapHeight: nat, aspectRatio: nat, bufferMaxLines: nat,
                   deviceTopo: nat, keyName: KeyNames,
                   printerH2: bool, printerH4: bool, printerInv: bool,
                   nfc: bool, ccr: bool, mcr: bool, bar: bool)

  datatype S1 = S1(isVoid: bool, ecrId: seq<byte>, paymentId: seq<byte>,
                   amountGross: seq<byte>, amountNet: seq<byte>, vat: seq<byte>,
                   cashback: seq<byte>, maxCashback: seq<byte>, currency: seq<byte>)

  datatype S2 = S2(error: nat, cardToken: seq<byte>, mid: seq<byte>, tid: seq<byte>, trxId: seq<byte>,
                   trxAmount: seq<byte>, cashback: seq<byte>, paymentMethod: seq<byte>, msg: seq<byte>)

  /** `union frob_body` together with the header type that says how it is read;
      the types `serialize` accepts. */
  datatype Body =
    | BodyT1 | BodyT3 | BodyD4 | BodyP1 | BodyA1 | BodyK1
    | BodyT2(info: DeviceInfo)
    | BodyT4(versions: seq<seq<byte>>)
    | BodyT5(version: seq<byte>)
    | BodyD5(d5: D5)
    | BodyS1(s1: S1)
    | BodyS2(s2: S2)
    | BodyI1(status: nat, msg: seq<byte>)
    | BodyA2(error: nat, msg: seq<byte>)
    | BodyB1(info: DeviceInfo)
    | BodyB2(info: DeviceInfo, result: nat, modulus: seq<byte>, exponent: seq<byte>)
    | BodyB3(kek: seq<byte>, kcv: seq<byte>)
    | BodyB4(result: nat)
    | BodyK0(result: nat, output: seq<byte>)

  datatype Msg = Msg(token: nat, body: Body)

  function TypeOf(b: Body): (t: TypeCode)
    ensures t != FROB_DA
  {
    match b
    case BodyT1 => FROB_T1
    case BodyT2(_) => FROB_T2
    case BodyT3 => FROB_T3
    case BodyT4(_) => FROB_T4
    case BodyT5(_) => FROB_T5
    case BodyD4 => FROB_D4
    case BodyD5(_) => FROB_D5
    case BodyS1(_) => FROB_S1
    case BodyS2(_) => FROB_S2
    case BodyP1 => FROB_P1
    case BodyI1(_, _) => FROB_I1
    case BodyA1 => FROB_A1
    case BodyA2(_, _) => FROB_A2
    case BodyB1(_) => FROB_B1
    case BodyB2(_, _, _, _) => FROB_B2
    case BodyB3(_, _) => FROB_B3
    case BodyB4(_) => FROB_B4
    case BodyK0(_, _) => FROB_K0
    case BodyK1 => FROB_K1
  }

  // ----- what is written

  /** A value as `_Generic` dispatches it: char array, unsigned number, byte array, transaction type. */
  datatype Value = Str(chars: seq<byte>) | Num(n: nat) | Hex(bytes: seq<byte>) | Trx(isVoid: bool)

  datatype Part = Data(v: Value) | Sep(b: byte) | Token(token: nat) | Type(t: TypeCode)

  const WORD: nat := 0x1_0000_0000

  function Content(v: Value): seq<byte> {
    match v
    case Str(a) => Text(a)
    case Num(n) => PrintDec(n % WORD)
    case Hex(bs) => HexBytes(bs)
    case Trx(isVoid) => [if isVoid then 'C' as int else 'S' as int]
  }

  function Written(p: Part): seq<byte> {
    match p
    case Data(v) => Content(v)
    case Sep(b) => [b]
    case Token(n) => PrintHex(n)
    case Type(t) => TypeToString(t)
  }

  function Bool(b: bool): Value {
    Num(if b then 1 else 0)
  }

  /** `FCOPY` and `UCOPY`: a value and its separator. */
  function F(v: Value): seq<Part> {
    [Data(v), Sep(FS)]
  }

  function U(v: Value): seq<Part> {
    [Data(v), Sep(US)]
  }

  function InfoParts(i: DeviceInfo): seq<Part> {
    F(Str(i.version)) + F(Str(i.vendor)) + F(Str(i.deviceType)) + F(Str(i.deviceId))
  }

  function WidthParts(d: D5): seq<Part> {
    F(Num(d.printerCpl)) + F(Num(d.printerCpl2x)) + F(Num(d.printerCpl4x)) + F(Num(d.printerCpln))
  }

  function StyleParts(d: D5): seq<Part> {
    F(Bool(d.printerH2)) + F(Bool(d.printerH4)) + F(Bool(d.printerInv))
  }

  function BitmapParts(d: D5): seq<Part> {
    F(Num(d.maxBarcodeLength)) + F(Num(d.maxQrcodeLength)) + F(Num(d.maxBitmapCount))
    + F(Num(d.maxBitmapWidth)) + F(Num(d.maxBitmapHeight))
  }

  function DisplayParts(d: D5): seq<Part> {
    F(Num(d.aspectRatio)) + F(Num(d.bufferMaxLines)) + F(Num(d.displayLc)) + F(Num(d.displayCpl))
  }

  function KeyParts(k: KeyNames): seq<Part> {
    U(Str(k.enter)) + U(Str(k.cancel)) + U(Str(k.check)) + U(Str(k.backspace)) + U(Str(k.delete))
  }

  function ArrowParts(k: KeyNames): seq<Part> {
    U(Str(k.up)) + U(Str(k.down)) + U(Str(k.left)) + U(Str(k.right)) + [Sep(FS)]
  }

  function DeviceParts(d: D5): seq<Part> {
    F(Num(d.deviceTopo)) + F(Bool(d.nfc)) + F(Bool(d.ccr)) + F(Bool(d.mcr)) + F(Bool(d.bar))
  }

  function SaleParts(s: S1): seq<Part> {
    F(Trx(s.isVoid)) + F(Str(s.ecrId)) + F(Str(s.paymentId)) + F(Str(s.amountGross)) + F(Str(s.amountNet))
  }

  function MoneyParts(s: S1): seq<Part> {
    F(Str(s.vat)) + F(Str(s.currency)) + F(Str(s.cashback)) + F(Str(s.maxCashback))
  }

  function VersionParts(vs: seq<seq<byte>>): seq<Part> {
    if vs == [] then [] else VersionParts(vs[..|vs| - 1]) + U(Str(vs[|vs| - 1]))
  }

  /** The cases of the switch in `serialize`. */
  function BodyParts(b: Body): seq<Part> {
    match b
    case BodyT1 => []
    case BodyT3 => []
    case BodyD4 => []
    case BodyP1 => []
    case BodyA1 => []
    case BodyK1 => []
    case BodyT2(info) => InfoParts(info)
    case BodyT4(vs) => VersionParts(vs) + [Sep(FS)]
    case BodyT5(v) => F(Str(v))
    case BodyD5(d) =>
      WidthParts(d) + StyleParts(d) + BitmapParts(d) + DisplayParts(d)
      + KeyParts(d.keyName) + ArrowParts(d.keyName) + DeviceParts(d)
    case BodyS1(s) => SaleParts(s) + MoneyParts(s)
    case BodyS2(s) =>
      F(Num(s.error)) + F(Hex(s.cardToken)) + F(Str(s.mid)) + F(Str(s.tid))
      + F(Str(s.trxAmount)) + F(Str(s.cashback)) + F(Str(s.paymentMethod)) + F(Str(s.msg))
    case BodyI1(status, msg) => F(Num(status)) + F(Str(msg))
    case BodyA2(error, msg) => F(Num(error)) + F(Str(msg))
    case BodyB1(info) => InfoParts(info)
    case BodyB2(info, result, modulus, exponent) =>
      InfoParts(info) + (F(Num(result)) + F(Hex(modulus)) + F(Hex(exponent)))
    case BodyB3(kek, kcv) => F(Hex(kek)) + F(Hex(kcv))
    case BodyB4(result) => F(Num(result))
    case BodyK0(result, output) => F(Num(result)) + F(Str(output))
  }

  /** Everything but the closing checksum. */
  function OpenParts(m: Msg): seq<Part> {
    [Sep(STX), Token(m.token), Sep(FS), Type(TypeOf(m.body)), Sep(FS)] + BodyParts(m.body) + [Sep(ETX)]
  }

  function Flat(ps: seq<Part>): seq<byte> {
    if ps == [] then [] else Flat(ps[..|ps| - 1]) + Written(ps[|ps| - 1])
  }

  lemma {:induction false} FlatConcat(a: seq<Part>, b: seq<Part>)
    ensures Flat(a + b) == Flat(a) + Flat(b)
    decreases |b|
  {
    hide Written;
    if b == [] {
      assert a + b == a;
    } else {
      var n := |b| - 1;
      assert (a + b)[..|a + b| - 1] == a + b[..n];
      FlatConcat(a, b[..n]);
    }
  }

  // ----- sizes

  predicate IsVersion(a: seq<byte>) { |a| == 4 }
  predicate IsAmount(a: seq<byte>) { |a| == 12 }

  predicate InfoSized(i: DeviceInfo) {
    IsVersion(i.version) && |i.vendor| == |i.deviceType| == |i.deviceId| == 20
  }

  predicate D5Sized(d: D5) {
    && d.displayLc < 0x100 && d.displayCpl < 0x100
    && d.printerCpl < 0x100 && d.printerCpl2x < 0x100 && d.printerCpl4x < 0x100 && d.printerCpln < 0x100
    && d.maxBarcodeLength < 0x1_0000 && d.maxQrcodeLength < 0x1_0000 && d.maxBitmapCount < 0x1_0000
    && d.maxBitmapWidth < 0x1_0000 && d.maxBitmapHeight < 0x1_0000
    && d.aspectRatio < 0x1_0000 && d.bufferMaxLines < 0x1_0000
    && d.deviceTopo < 4
    && var k := d.keyName;
       && |k.enter| == |k.cancel| == |k.check| == |k.backspace| == |k.delete| == 16
       && |k.up| == |k.down| == |k.left| == |k.right| == 16
  }

  /** The sizes of the C types. */
  predicate Sized(b: Body) {
    match b
    case BodyT1 => true
    case BodyT3 => true
    case BodyD4 => true
    case BodyP1 => true
    case BodyA1 => true
    case BodyK1 => true
    case BodyT2(info) => InfoSized(info)
    case BodyT4(vs) => |vs| == 20 && forall v | v in vs :: IsVersion(v)
    case BodyT5(v) => IsVersion(v)
    case BodyD5(d) => D5Sized(d)
    case BodyS1(s) =>
      && |s.ecrId| == |s.paymentId| == 20 && |s.currency| == 3
      && IsAmount(s.amountGross) && IsAmount(s.amountNet) && IsAmount(s.vat)
      && IsAmount(s.cashback) && IsAmount(s.maxCashback)
    case BodyS2(s) =>
      && |s.cardToken| == 32 && |s.mid| == |s.tid| == |s.trxId| == 20
      && IsAmount(s.trxAmount) && IsAmount(s.cashback) && |s.paymentMethod| == 40 && |s.msg| == 80
    case BodyI1(status, msg) => |msg| == 80
    case BodyA2(error, msg) => |msg| == 100
    case BodyB1(info) => InfoSized(info)
    case BodyB2(info, result, modulus, exponent) => InfoSized(info) && |modulus| == 256 && |exponent| == 3
    case BodyB3(kek, kcv) => |kek| == 256 && |kcv| == 3
    case BodyB4(result) => true
    case BodyK0(result, output) => |output| == 100
  }
}
