/** fsm/body.rl: the grammar of every body, and what its actions store in the message. */
module Bodies {
  import opened Bytes
  import opened Numerals
  import opened Message
  import opened FieldMachine
  import opened Header

  // ----- the kinds of fields

  /** `a+ >C fs @...` */
  function TextRule(width: nat): Rule {
    Rule(Printable, 1, None, false, true, Copy(width), FS)
  }

  /** `(a+ >C fs @...) | fs` */
  function MaybeRule(width: nat): Rule {
    Rule(Printable, 1, None, true, true, Copy(width), FS)
  }

  /** `a* >C fs @...`, or with `us` */
  function AnyRule(width: nat, sep: byte): Rule {
    Rule(Printable, 0, None, false, true, Copy(width), sep)
  }

  function AmountRule(min: nat): Rule {
    Rule(Digit, min, None, false, true, Copy(12), FS)
  }

  /** `n* >C fs @...` */
  function NumberRule(bound: nat): Rule {
    Rule(Digit, 0, None, false, true, Strtol(bound), FS)
  }

  /** `n >C fs @...` */
  function FlagRule(): Rule {
    Rule(Digit, 1, Some(1), false, true, Strbool, FS)
  }

  /** `h* >C fs @...` */
  function HexRule(width: nat): Rule {
    Rule(Xdigit, 0, None, false, true, UnHex(width), FS)
  }

  function LoneRule(): Rule {
    Rule(Nothing, 0, Some(0), false, false, Skip, FS)
  }

  function TopologyRule(): Rule {
    Rule(Topology, 1, Some(1), false, false, Topo, FS)
  }

  function TrxRule(): Rule {
    Rule(SOrC, 1, Some(1), false, true, TrxCode, FS)
  }

  function CurrencyRule(): Rule {
    Rule(Printable, 3, Some(3), false, true, Copy(3), FS)
  }

  const LONG: nat := 0x1_0000_0000_0000_0000

  function InfoRules(): seq<Rule> {
    [TextRule(4), MaybeRule(20), MaybeRule(20), MaybeRule(20)]
  }

  function WidthRules(): seq<Rule> {
    [NumberRule(0x100), NumberRule(0x100), NumberRule(0x100), NumberRule(0x100)]
  }

  function StyleRules(): seq<Rule> {
    [FlagRule(), FlagRule(), FlagRule()]
  }

  function BitmapRules(): seq<Rule> {
    [NumberRule(0x1_0000), NumberRule(0x1_0000), NumberRule(0x1_0000), NumberRule(0x1_0000), NumberRule(0x1_0000)]
  }

  function DisplayRules(): seq<Rule> {
    [NumberRule(0x1_0000), NumberRule(0x1_0000), NumberRule(0x100), NumberRule(0x100)]
  }

  function KeyRules(): seq<Rule> {
    [AnyRule(16, US), AnyRule(16, US), AnyRule(16, US), AnyRule(16, US), AnyRule(16, US)]
  }

  function ArrowRules(): seq<Rule> {
    [AnyRule(16, US), AnyRule(16, US), AnyRule(16, US), AnyRule(16, US), LoneRule()]
  }

  function DeviceRules(): seq<Rule> {
    [TopologyRule(), FlagRule(), FlagRule(), FlagRule(), FlagRule()]
  }

  function SaleRules(): seq<Rule> {
    [TrxRule(), TextRule(20), TextRule(20), AmountRule(1), AmountRule(1)]
  }

  function MoneyRules(): seq<Rule> {
    [AmountRule(1), CurrencyRule(), AmountRule(1), AmountRule(1)]
  }

  function ReceiptRules(): seq<Rule> {
    [NumberRule(LONG), HexRule(32), AnyRule(20, FS), AnyRule(20, FS), AnyRule(20, FS),
     AmountRule(0), AmountRule(0), AnyRule(40, FS), AnyRule(80, FS)]
  }

  /** The row that the machine of a type reads, as far as n bytes can tell; None is ENOSYS. */
  function Grammar(t: int, n: nat): Option<seq<Rule>> {
    if t in {FROB_T1, FROB_T3, FROB_D4, FROB_K1} then Some([LoneRule()])
    else if t in {FROB_T2, FROB_B1} then Some(InfoRules())
    else if t == FROB_T4 then Some(seq(n, _ => TextRule(4)))
    else if t == FROB_T5 then Some([TextRule(4)])
    else if t == FROB_D5 then
      Some(WidthRules() + StyleRules() + BitmapRules() + DisplayRules() + KeyRules() + ArrowRules() + DeviceRules())
    else if t == FROB_S1 then Some(SaleRules() + MoneyRules())
    else if t == FROB_S2 then Some(ReceiptRules())
    else if t == FROB_B2 then Some(InfoRules() + [NumberRule(LONG), HexRule(256), HexRule(3)])
    else if t == FROB_B3 then Some([HexRule(256), HexRule(3)])
    else if t == FROB_B4 then Some([NumberRule(LONG)])
    else if t == FROB_K0 then Some([NumberRule(LONG), AnyRule(100, FS)])
    else None
  }

  /** How many fields a final state has behind it, and what the function returns for any other state. */
  function Need(t: int): nat {
    if t == FROB_T5 || t == FROB_B4 || t == FROB_K0 then 1
    else if t == FROB_S1 then 8
    else if t == FROB_S2 || t == FROB_B2 then 5
    else if t == FROB_D5 then 31
    else if t == FROB_B1 then 4
    else if t == FROB_B3 then 2
    else 0
  }

  function CodeOf(t: int, h: Halt): Code {
    if t in {FROB_T1, FROB_T2, FROB_T4, FROB_D4} || IsFinal(h, Need(t)) then Ok
    else if t in {FROB_T3, FROB_K1} then BadMsg
    else if t in {FROB_T5, FROB_S1} then Perm
    else NotRecoverable
  }

  // ----- the stores

  function SkipSpaces(s: seq<byte>): seq<byte> {
    if s != [] && (s[0] == 0x20 || 9 <= s[0] <= 13) then SkipSpaces(s[1..]) else s
  }

  function LeadingDigits(s: seq<byte>): seq<byte> {
    if s != [] && IsDigit(s[0]) then [s[0]] + LeadingDigits(s[1..]) else []
  }

  /** `strtol(..., 10)`: spaces, a sign, digits, and a result that saturates. */
  function StrTol(s: seq<byte>): int {
    var t := SkipSpaces(s);
    var negative := t != [] && t[0] == '-' as int;
    var n := ParseDec(LeadingDigits(if t != [] && t[0] in {'-' as int, '+' as int} then t[1..] else t));
    if negative then (if n > LONG / 2 then -(LONG / 2 as int) else -(n as int))
    else if n >= LONG / 2 then LONG / 2 - 1 else n
  }

  /** What stands between `c` and the separator. */
  function Seen(c: Captured): seq<byte> {
    match c
    case Taken(text) => text
    case Stale(text) => text
    case Wild => []
    case Absent => []
  }

  /** Conversion to an unsigned type of `bound` values. */
  function Narrowed(n: int, bound: nat): nat {
    if 0 <= n < bound then n else if bound == 0 then 0 else n % bound
  }

  /** What a store leaves in a field that was zero before. */
  function Stores(st: Store, c: Captured): Value {
    var t := Seen(c);
    match st
    case Skip => Str([])
    case Copy(width) => Str(Stored(t, width))
    case Strtol(bound) => Num(Narrowed(StrTol(t), bound))
    case UnHex(width) => Hex(Stored(Unhexed(t), width))
    case Strbool => Bool(t != [] && t[0] == '1' as int)
    case TrxCode => Trx(t != [] && t[0] != 'S' as int)
    case Topo => Num(if t == [] || t[0] < 0x30 then 0 else t[0] - 0x30)
  }

  /** Nothing was read from an unset pointer, and nothing written behind an array. */
  predicate IsSafe(t: int, g: seq<Rule>, out: seq<Captured>)
    requires |out| <= |g|
  {
    && (t == FROB_T4 ==> |out| <= 20)
    && forall k | 0 <= k < |out| ::
         out[k] != Wild && (g[k].store.UnHex? ==> |Unhexed(Seen(out[k]))| <= g[k].store.width)
  }

  function ValuesRead(g: seq<Rule>, out: seq<Captured>): (vs: seq<Value>)
    ensures |vs| == |g|
  {
    seq(|g|, k requires 0 <= k < |g| => Stores(g[k].store, if k < |out| then out[k] else Absent))
  }

  // ----- a body and the values of its row

  function Chars(v: Value): seq<byte> {
    if v.Str? then v.chars else []
  }

  function Octets(v: Value): seq<byte> {
    if v.Hex? then v.bytes else []
  }

  function Number(v: Value): nat {
    if v.Num? then v.n else 0
  }

  function Flag(v: Value): bool {
    Number(v) == 1
  }

  function InfoValues(i: DeviceInfo): seq<Value> {
    [Str(i.version), Str(i.vendor), Str(i.deviceType), Str(i.deviceId)]
  }

  function WidthValues(d: D5): seq<Value> {
    [Num(d.printerCpl), Num(d.printerCpl2x), Num(d.printerCpl4x), Num(d.printerCpln)]
  }

  function StyleValues(d: D5): seq<Value> {
    [Bool(d.printerH2), Bool(d.printerH4), Bool(d.printerInv)]
  }

  function BitmapValues(d: D5): seq<Value> {
    [Num(d.maxBarcodeLength), Num(d.maxQrcodeLength), Num(d.maxBitmapCount), Num(d.maxBitmapWidth),
     Num(d.maxBitmapHeight)]
  }

  function DisplayValues(d: D5): seq<Value> {
    [Num(d.aspectRatio), Num(d.bufferMaxLines), Num(d.displayLc), Num(d.displayCpl)]
  }

  function KeyValues(k: KeyNames): seq<Value> {
    [Str(k.enter), Str(k.cancel), Str(k.check), Str(k.backspace), Str(k.delete)]
  }

  function ArrowValues(k: KeyNames): seq<Value> {
    [Str(k.up), Str(k.down), Str(k.left), Str(k.right), Str([])]
  }

  function DeviceValues(d: D5): seq<Value> {
    [Num(d.deviceTopo), Bool(d.nfc), Bool(d.ccr), Bool(d.mcr), Bool(d.bar)]
  }

  function SaleValues(s: S1): seq<Value> {
    [Trx(s.isVoid), Str(s.ecrId), Str(s.paymentId), Str(s.amountGross), Str(s.amountNet)]
  }

  function MoneyValues(s: S1): seq<Value> {
    [Str(s.vat), Str(s.currency), Str(s.cashback), Str(s.maxCashback)]
  }

  function InfoOf(vs: seq<Value>): DeviceInfo
    requires |vs| >= 4
  {
    DeviceInfo(Chars(vs[0]), Chars(vs[1]), Chars(vs[2]), Chars(vs[3]))
  }

  function D5Of(vs: seq<Value>): D5
    requires |vs| == 31
  {
    D5(Number(vs[14]), Number(vs[15]),
       Number(vs[0]), Number(vs[1]), Number(vs[2]), Number(vs[3]),
       Number(vs[7]), Number(vs[8]), Number(vs[9]), Number(vs[10]),
       Number(vs[11]), Number(vs[12]), Number(vs[13]),
       Number(vs[26]),
       KeyNames(Chars(vs[16]), Chars(vs[17]), Chars(vs[18]), Chars(vs[19]), Chars(vs[20]),
                Chars(vs[21]), Chars(vs[22]), Chars(vs[23]), Chars(vs[24])),
       Flag(vs[4]), Flag(vs[5]), Flag(vs[6]),
       Flag(vs[27]), Flag(vs[28]), Flag(vs[29]), Flag(vs[30]))
  }

  function S1Of(vs: seq<Value>): S1
    requires |vs| == 9
  {
    S1(vs[0].Trx? && vs[0].isVoid, Chars(vs[1]), Chars(vs[2]), Chars(vs[3]), Chars(vs[4]), Chars(vs[5]),
       Chars(vs[7]), Chars(vs[8]), Chars(vs[6]))
  }

  function S2Of(vs: seq<Value>): S2
    requires |vs| == 9
  {
    S2(Number(vs[0]), Octets(vs[1]), Chars(vs[2]), Chars(vs[3]), Chars(vs[4]), Chars(vs[5]), Chars(vs[6]),
       Chars(vs[7]), Chars(vs[8]))
  }

  /** The body with these values in its row. */
  function Build(t: int, vs: seq<Value>): (b: Body)
    requires Grammar(t, |vs|).Some? && |vs| == |Grammar(t, |vs|).value|
    ensures TypeOf(b) == t
  {
    if t == FROB_T1 then BodyT1
    else if t == FROB_T3 then BodyT3
    else if t == FROB_D4 then BodyD4
    else if t == FROB_K1 then BodyK1
    else if t == FROB_T2 then BodyT2(InfoOf(vs))
    else if t == FROB_B1 then BodyB1(InfoOf(vs))
    else if t == FROB_T4 then BodyT4(seq(20, k requires 0 <= k => if k < |vs| then Chars(vs[k]) else [0, 0, 0, 0]))
    else if t == FROB_T5 then BodyT5(Chars(vs[0]))
    else if t == FROB_D5 then BodyD5(D5Of(vs))
    else if t == FROB_S1 then BodyS1(S1Of(vs))
    else if t == FROB_S2 then BodyS2(S2Of(vs))
    else if t == FROB_B2 then BodyB2(InfoOf(vs), Number(vs[4]), Octets(vs[5]), Octets(vs[6]))
    else if t == FROB_B3 then BodyB3(Octets(vs[0]), Octets(vs[1]))
    else if t == FROB_B4 then BodyB4(Number(vs[0]))
    else BodyK0(Number(vs[0]), Chars(vs[1]))
  }
}
