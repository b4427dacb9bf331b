/** The writer and the reader of a body agree on its row: the same fields, in the same order. */
module Rows {
  import opened Bytes
  import opened Numerals
  import opened Message
  import opened FieldMachine
  import opened Bodies

  /** The types that are read as the row of fields they are written as. */
  predicate HasRow(b: Body) {
    b.BodyT2? || b.BodyT5? || b.BodyD5? || b.BodyS1? || b.BodyB1? || b.BodyB2? || b.BodyB3? || b.BodyB4? || b.BodyK0?
  }

  /** The types without a body. */
  predicate IsBare(b: Body) {
    b.BodyT1? || b.BodyT3? || b.BodyD4? || b.BodyK1?
  }

  function Row(b: Body): seq<Rule>
    requires HasRow(b)
  {
    match b
    case BodyT2(_) => InfoRules()
    case BodyT5(_) => [TextRule(4)]
    case BodyD5(_) =>
      WidthRules() + StyleRules() + BitmapRules() + DisplayRules() + KeyRules() + ArrowRules() + DeviceRules()
    case BodyS1(_) => SaleRules() + MoneyRules()
    case BodyB1(_) => InfoRules()
    case BodyB2(_, _, _, _) => InfoRules() + [NumberRule(LONG), HexRule(256), HexRule(3)]
    case BodyB3(_, _) => [HexRule(256), HexRule(3)]
    case BodyB4(_) => [NumberRule(LONG)]
    case BodyK0(_, _) => [NumberRule(LONG), AnyRule(100, FS)]
  }

  lemma RowIsGrammar(b: Body, n: nat)
    requires HasRow(b)
    ensures Grammar(TypeOf(b), n) == Some(Row(b))
  {
  }

  function Values(b: Body): seq<Value>
    requires HasRow(b)
  {
    match b
    case BodyT2(info) => InfoValues(info)
    case BodyT5(v) => [Str(v)]
    case BodyD5(d) =>
      WidthValues(d) + StyleValues(d) + BitmapValues(d) + DisplayValues(d)
      + KeyValues(d.keyName) + ArrowValues(d.keyName) + DeviceValues(d)
    case BodyS1(s) => SaleValues(s) + MoneyValues(s)
    case BodyB1(info) => InfoValues(info)
    case BodyB2(info, result, modulus, exponent) => InfoValues(info) + [Num(result), Hex(modulus), Hex(exponent)]
    case BodyB3(kek, kcv) => [Hex(kek), Hex(kcv)]
    case BodyB4(result) => [Num(result)]
    case BodyK0(result, output) => [Num(result), Str(output)]
  }

  function Texts(vs: seq<Value>): (ts: seq<seq<byte>>)
    ensures |ts| == |vs|
  {
    seq(|vs|, k requires 0 <= k < |vs| => Content(vs[k]))
  }

  // ----- items laid out as a row

  ghost predicate Lays(ps: seq<Part>, g: seq<Rule>, vs: seq<Value>) {
    |g| == |vs| && Flat(ps) == Joined(g, Texts(vs))
  }

  lemma {:induction false} JoinedConcat(g: seq<Rule>, ts: seq<seq<byte>>, g': seq<Rule>, ts': seq<seq<byte>>)
    requires |g| == |ts| && |g'| == |ts'|
    ensures Joined(g + g', ts + ts') == Joined(g, ts) + Joined(g', ts')
  {
    if g == [] {
      assert g + g' == g' && ts + ts' == ts';
    } else {
      JoinedConcat(g[1..], ts[1..], g', ts');
      assert (g + g')[1..] == g[1..] + g' && (ts + ts')[1..] == ts[1..] + ts';
    }
  }

  lemma LaysConcat(ps: seq<Part>, g: seq<Rule>, vs: seq<Value>, ps': seq<Part>, g': seq<Rule>, vs': seq<Value>)
    requires Lays(ps, g, vs) && Lays(ps', g', vs')
    ensures Lays(ps + ps', g + g', vs + vs')
  {
    hide Flat, Joined, Content;
    FlatConcat(ps, ps');
    JoinedConcat(g, Texts(vs), g', Texts(vs'));
    assert Texts(vs + vs') == Texts(vs) + Texts(vs');
  }

  /** One field, as FCOPY, UCOPY or BCOPY write it. */
  function Item(r: Rule, v: Value): seq<Part> {
    if r.store.Skip? then [Sep(r.sep)] else [Data(v), Sep(r.sep)]
  }

  lemma LaysOne(r: Rule, v: Value)
    requires r.store.Skip? ==> v == Str([])
    ensures Lays(Item(r, v), [r], [v])
  {
    assert Texts([v]) == [Content(v)];
    assert [r][1..] == [] && [Content(v)][1..] == [];
    assert Joined([r], [Content(v)]) == Content(v) + [r.sep] + Joined([], []);
    assert Item(r, v)[..|Item(r, v)| - 1] == if r.store.Skip? then [] else [Data(v)];
    assert [Data(v)][..0] == [];
    if r.store.Skip? {
      assert Text([]) == [];
    } else {
      assert Flat([Data(v)]) == Flat([]) + Content(v);
    }
  }

  lemma Lays2(r: Rule, v: Value, r': Rule, v': Value)
    requires (r.store.Skip? ==> v == Str([])) && (r'.store.Skip? ==> v' == Str([]))
    ensures Lays(Item(r, v) + Item(r', v'), [r, r'], [v, v'])
  {
    hide Lays, Item;
    LaysOne(r, v);
    LaysOne(r', v');
    LaysConcat(Item(r, v), [r], [v], Item(r', v'), [r'], [v']);
    assert [r] + [r'] == [r, r'] && [v] + [v'] == [v, v'];
  }

  lemma Lays3(g: seq<Rule>, vs: seq<Value>)
    requires |g| == |vs| == 3 && forall k | 0 <= k < 3 :: g[k].store.Skip? ==> vs[k] == Str([])
    ensures Lays(Item(g[0], vs[0]) + Item(g[1], vs[1]) + Item(g[2], vs[2]), g, vs)
  {
    hide Lays, Item;
    Lays2(g[0], vs[0], g[1], vs[1]);
    LaysOne(g[2], vs[2]);
    LaysConcat(Item(g[0], vs[0]) + Item(g[1], vs[1]), [g[0], g[1]], [vs[0], vs[1]], Item(g[2], vs[2]), [g[2]], [vs[2]]);
    assert [g[0], g[1]] + [g[2]] == g && [vs[0], vs[1]] + [vs[2]] == vs;
  }

  lemma Lays4(g: seq<Rule>, vs: seq<Value>)
    requires |g| == |vs| == 4 && forall k | 0 <= k < 4 :: g[k].store.Skip? ==> vs[k] == Str([])
    ensures Lays(Item(g[0], vs[0]) + Item(g[1], vs[1]) + Item(g[2], vs[2]) + Item(g[3], vs[3]), g, vs)
  {
    hide Lays, Item;
    Lays3(g[..3], vs[..3]);
    LaysOne(g[3], vs[3]);
    LaysConcat(Item(g[0], vs[0]) + Item(g[1], vs[1]) + Item(g[2], vs[2]), g[..3], vs[..3],
               Item(g[3], vs[3]), [g[3]], [vs[3]]);
    assert g[..3] + [g[3]] == g && vs[..3] + [vs[3]] == vs;
  }

  lemma Lays5(g: seq<Rule>, vs: seq<Value>)
    requires |g| == |vs| == 5 && forall k | 0 <= k < 5 :: g[k].store.Skip? ==> vs[k] == Str([])
    ensures Lays(Item(g[0], vs[0]) + Item(g[1], vs[1]) + Item(g[2], vs[2]) + Item(g[3], vs[3]) + Item(g[4], vs[4]),
                 g, vs)
  {
    hide Lays, Item;
    Lays4(g[..4], vs[..4]);
    LaysOne(g[4], vs[4]);
    LaysConcat(Item(g[0], vs[0]) + Item(g[1], vs[1]) + Item(g[2], vs[2]) + Item(g[3], vs[3]), g[..4], vs[..4],
               Item(g[4], vs[4]), [g[4]], [vs[4]]);
    assert g[..4] + [g[4]] == g && vs[..4] + [vs[4]] == vs;
  }

  lemma InfoLaid(i: DeviceInfo)
    ensures Lays(InfoParts(i), InfoRules(), InfoValues(i))
  {
    hide Lays;
    Lays4(InfoRules(), InfoValues(i));
  }

  lemma DeviceLaid(d: D5)
    ensures Lays(WidthParts(d), WidthRules(), WidthValues(d))
    ensures Lays(StyleParts(d), StyleRules(), StyleValues(d))
    ensures Lays(BitmapParts(d), BitmapRules(), BitmapValues(d))
    ensures Lays(DisplayParts(d), DisplayRules(), DisplayValues(d))
    ensures Lays(DeviceParts(d), DeviceRules(), DeviceValues(d))
  {
    hide Lays;
    Lays4(WidthRules(), WidthValues(d));
    Lays3(StyleRules(), StyleValues(d));
    Lays5(BitmapRules(), BitmapValues(d));
    Lays4(DisplayRules(), DisplayValues(d));
    Lays5(DeviceRules(), DeviceValues(d));
  }

  lemma KeysLaid(k: KeyNames)
    ensures Lays(KeyParts(k), KeyRules(), KeyValues(k))
    ensures Lays(ArrowParts(k), ArrowRules(), ArrowValues(k))
  {
    hide Lays;
    Lays5(KeyRules(), KeyValues(k));
    Lays5(ArrowRules(), ArrowValues(k));
  }

  lemma SaleLaid(s: S1)
    ensures Lays(SaleParts(s) + MoneyParts(s), SaleRules() + MoneyRules(), SaleValues(s) + MoneyValues(s))
  {
    hide Lays;
    Lays5(SaleRules(), SaleValues(s));
    Lays4(MoneyRules(), MoneyValues(s));
    LaysConcat(SaleParts(s), SaleRules(), SaleValues(s), MoneyParts(s), MoneyRules(), MoneyValues(s));
  }

  lemma D5Laid(d: D5)
    ensures Lays(BodyParts(BodyD5(d)), Row(BodyD5(d)), Values(BodyD5(d)))
  {
    hide Lays, WidthParts, StyleParts, BitmapParts, DisplayParts, KeyParts, ArrowParts, DeviceParts, WidthRules,
         StyleRules, BitmapRules, DisplayRules, KeyRules, ArrowRules, DeviceRules, WidthValues, StyleValues,
         BitmapValues, DisplayValues, KeyValues, ArrowValues, DeviceValues;
    DeviceLaid(d);
    KeysLaid(d.keyName);
    var p, g, v := WidthParts(d), WidthRules(), WidthValues(d);
    LaysConcat(p, g, v, StyleParts(d), StyleRules(), StyleValues(d));
    p, g, v := p + StyleParts(d), g + StyleRules(), v + StyleValues(d);
    LaysConcat(p, g, v, BitmapParts(d), BitmapRules(), BitmapValues(d));
    p, g, v := p + BitmapParts(d), g + BitmapRules(), v + BitmapValues(d);
    LaysConcat(p, g, v, DisplayParts(d), DisplayRules(), DisplayValues(d));
    p, g, v := p + DisplayParts(d), g + DisplayRules(), v + DisplayValues(d);
    LaysConcat(p, g, v, KeyParts(d.keyName), KeyRules(), KeyValues(d.keyName));
    p, g, v := p + KeyParts(d.keyName), g + KeyRules(), v + KeyValues(d.keyName);
    LaysConcat(p, g, v, ArrowParts(d.keyName), ArrowRules(), ArrowValues(d.keyName));
    p, g, v := p + ArrowParts(d.keyName), g + ArrowRules(), v + ArrowValues(d.keyName);
    LaysConcat(p, g, v, DeviceParts(d), DeviceRules(), DeviceValues(d));
  }

  lemma B2Laid(b: Body)
    requires b.BodyB2?
    ensures Lays(BodyParts(b), Row(b), Values(b))
  {
    hide Lays, InfoParts, InfoRules, InfoValues;
    InfoLaid(b.info);
    var g, vs := [NumberRule(LONG), HexRule(256), HexRule(3)], [Num(b.result), Hex(b.modulus), Hex(b.exponent)];
    Lays3(g, vs);
    LaysConcat(InfoParts(b.info), InfoRules(), InfoValues(b.info), F(vs[0]) + F(vs[1]) + F(vs[2]), g, vs);
  }

  lemma SmallLaid(b: Body)
    requires b.BodyT5? || b.BodyB3? || b.BodyB4? || b.BodyK0?
    ensures Lays(BodyParts(b), Row(b), Values(b))
  {
    hide Lays;
    match b
    case BodyT5(v) => LaysOne(TextRule(4), Str(v));
    case BodyB3(kek, kcv) => Lays2(HexRule(256), Hex(kek), HexRule(3), Hex(kcv));
    case BodyB4(result) => LaysOne(NumberRule(LONG), Num(result));
    case BodyK0(result, output) => Lays2(NumberRule(LONG), Num(result), AnyRule(100, FS), Str(output));
  }

  lemma BodyLaid(b: Body)
    requires HasRow(b)
    ensures Lays(BodyParts(b), Row(b), Values(b))
  {
    hide Lays, InfoParts, InfoRules, InfoValues, SaleParts, MoneyParts, SaleRules, MoneyRules, SaleValues,
         MoneyValues;
    match b
    case BodyT2(info) => InfoLaid(info);
    case BodyB1(info) => InfoLaid(info);
    case BodyD5(d) => D5Laid(d);
    case BodyS1(s) => SaleLaid(s);
    case BodyB2(_, _, _, _) => B2Laid(b);
    case _ => SmallLaid(b);
  }

  /** The body that is written is the row that is read. */
  lemma BodyIsRow(b: Body)
    requires HasRow(b)
    ensures |Row(b)| == |Values(b)| && Flat(BodyParts(b)) == Joined(Row(b), Texts(Values(b)))
  {
    hide Flat, Joined, Texts, Row, Values, BodyParts;
    BodyLaid(b);
  }

  // ----- a body and its values

  /** What can stand in a field of this kind. */
  ghost predicate Shaped(st: Store, v: Value) {
    match st
    case Skip => v == Str([])
    case Copy(_) => v.Str?
    case Strtol(_) => v.Num?
    case UnHex(_) => v.Hex?
    case Strbool => v == Num(0) || v == Num(1)
    case TrxCode => v.Trx?
    case Topo => v.Num?
  }

  lemma D5OfValues(d: D5)
    ensures |Values(BodyD5(d))| == 31 && D5Of(Values(BodyD5(d))) == d
  {
  }

  lemma S1OfValues(s: S1)
    ensures S1Of(SaleValues(s) + MoneyValues(s)) == s
  {
  }

  lemma BuildOfValues(b: Body)
    requires HasRow(b)
    ensures |Row(b)| == |Values(b)| && Grammar(TypeOf(b), |Values(b)|) == Some(Row(b))
    ensures Build(TypeOf(b), Values(b)) == b
  {
    hide Row, Grammar, D5Of, S1Of, SaleValues, MoneyValues, WidthValues, StyleValues, BitmapValues, DisplayValues,
         KeyValues, ArrowValues, DeviceValues;
    RowIsGrammar(b, |Values(b)|);
    SameLength(b);
    match b
    case BodyD5(d) => D5OfValues(d);
    case BodyS1(s) => S1OfValues(s);
    case _ =>
  }

  lemma SameLength(b: Body)
    requires HasRow(b)
    ensures |Row(b)| == |Values(b)|
  {
  }

  ghost predicate AllShaped(g: seq<Rule>, vs: seq<Value>) {
    |g| == |vs| && forall k | 0 <= k < |g| :: Shaped(g[k].store, vs[k])
  }

  lemma ShapedPart(g: seq<Rule>, vs: seq<Value>, i: nat, part: seq<Rule>)
    requires AllShaped(g, vs) && i + |part| <= |g| && part == g[i..i + |part|]
    ensures AllShaped(part, vs[i..i + |part|])
  {
    hide Shaped;
    assert forall k | 0 <= k < |part| :: part[k] == g[i + k];
  }

  lemma PrintValuesBack(vs: seq<Value>)
    requires |vs| == 31 && AllShaped(WidthRules(), vs[0..4]) && AllShaped(StyleRules(), vs[4..7])
    requires AllShaped(BitmapRules(), vs[7..12]) && AllShaped(DisplayRules(), vs[12..16])
    ensures var d := D5Of(vs);
            && WidthValues(d) == vs[0..4] && StyleValues(d) == vs[4..7]
            && BitmapValues(d) == vs[7..12] && DisplayValues(d) == vs[12..16]
  {
  }

  lemma KeyValuesBack(vs: seq<Value>)
    requires |vs| == 31 && AllShaped(KeyRules(), vs[16..21]) && AllShaped(ArrowRules(), vs[21..26])
    requires AllShaped(DeviceRules(), vs[26..31])
    ensures var d := D5Of(vs);
            && KeyValues(d.keyName) == vs[16..21] && ArrowValues(d.keyName) == vs[21..26]
            && DeviceValues(d) == vs[26..31]
  {
  }

  lemma D5Parts(g: seq<Rule>)
    requires g == WidthRules() + StyleRules() + BitmapRules() + DisplayRules() + KeyRules() + ArrowRules()
             + DeviceRules()
    ensures |g| == 31 && g[0..4] == WidthRules() && g[4..7] == StyleRules() && g[7..12] == BitmapRules()
    ensures g[12..16] == DisplayRules() && g[16..21] == KeyRules() && g[21..26] == ArrowRules()
    ensures g[26..31] == DeviceRules()
  {
    hide NumberRule, FlagRule, AnyRule, TopologyRule, LoneRule;
  }

  lemma Seven(vs: seq<Value>)
    requires |vs| == 31
    ensures vs == vs[0..4] + vs[4..7] + vs[7..12] + vs[12..16] + vs[16..21] + vs[21..26] + vs[26..31]
  {
  }

  lemma ValuesOfD5(b: Body, vs: seq<Value>)
    requires b.BodyD5? && AllShaped(Row(b), vs)
    ensures |vs| == 31 && Values(BodyD5(D5Of(vs))) == vs
  {
    hide AllShaped, D5Of, WidthRules, StyleRules, BitmapRules, DisplayRules, KeyRules, ArrowRules, DeviceRules,
         WidthValues, StyleValues, BitmapValues, DisplayValues, KeyValues, ArrowValues, DeviceValues;
    var g := Row(b);
    ShapedLength(g, vs);
    D5Parts(g);
    ShapedPart(g, vs, 0, g[0..4]);
    ShapedPart(g, vs, 4, g[4..7]);
    ShapedPart(g, vs, 7, g[7..12]);
    ShapedPart(g, vs, 12, g[12..16]);
    ShapedPart(g, vs, 16, g[16..21]);
    ShapedPart(g, vs, 21, g[21..26]);
    ShapedPart(g, vs, 26, g[26..31]);
    PrintValuesBack(vs);
    KeyValuesBack(vs);
    Seven(vs);
  }

  lemma ShapedLength(g: seq<Rule>, vs: seq<Value>)
    requires AllShaped(g, vs)
    ensures |vs| == |g|
  {
  }

  lemma ValuesOfS1(vs: seq<Value>)
    requires AllShaped(SaleRules() + MoneyRules(), vs)
    ensures |vs| == 9 && SaleValues(S1Of(vs)) + MoneyValues(S1Of(vs)) == vs
  {
    var g := SaleRules() + MoneyRules();
    assert g[..5] == SaleRules() && g[5..] == MoneyRules();
  }

  lemma ValuesOfInfo(vs: seq<Value>)
    requires |vs| >= 4 && AllShaped(InfoRules(), vs[..4])
    ensures InfoValues(InfoOf(vs)) == vs[..4]
  {
  }

  lemma ValuesOfB2(b: Body, vs: seq<Value>)
    requires b.BodyB2? && AllShaped(Row(b), vs)
    ensures |vs| == 7
    ensures b == BodyB2(InfoOf(vs), Number(vs[4]), Octets(vs[5]), Octets(vs[6])) ==> vs == Values(b)
  {
    hide InfoRules, InfoValues;
    InfoLength();
    ShapedPart(Row(b), vs, 0, InfoRules());
    ShapedPart(Row(b), vs, 4, [NumberRule(LONG), HexRule(256), HexRule(3)]);
    ValuesOfInfo(vs);
    assert vs == vs[..4] + vs[4..7];
  }

  lemma InfoLength()
    ensures |InfoRules()| == 4
  {
  }

  /** No two rows of values make the same body. */
  lemma BuildIsInjective(b: Body, vs: seq<Value>)
    requires HasRow(b) && AllShaped(Row(b), vs)
    ensures |vs| == |Row(b)| && Grammar(TypeOf(b), |vs|) == Some(Row(b))
    ensures Build(TypeOf(b), vs) == b <==> vs == Values(b)
  {
    hide Grammar, D5Of, S1Of, SaleValues, MoneyValues, SaleRules, MoneyRules, InfoValues, InfoRules, WidthValues,
         StyleValues, BitmapValues, DisplayValues, KeyValues, ArrowValues, DeviceValues;
    BuildOfValues(b);
    RowIsGrammar(b, |vs|);
    ShapedLength(Row(b), vs);
    InfoLength();
    match b
    case BodyD5(_) => ValuesOfD5(b, vs);
    case BodyS1(_) => ValuesOfS1(vs);
    case BodyB2(_, _, _, _) => ValuesOfB2(b, vs);
    case BodyT2(_) =>
      assert vs[..4] == vs;
      ValuesOfInfo(vs);
    case BodyB1(_) =>
      assert vs[..4] == vs;
      ValuesOfInfo(vs);
    case _ =>
  }
}
