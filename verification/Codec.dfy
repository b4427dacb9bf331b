/** What `serialize` writes, the frame machine cuts out and `parse_message` reads back. */
module Codec {
  import opened Bytes
  import opened Numerals
  import opened Message
  import opened FieldMachine
  import opened Bodies
  import opened Rows
  import opened Fields
  import opened Conditions
  import opened Parser
  import A = Attributes
  import H = Header
  import opened Serialization
  import Fr = Frame
  import FrameSpec
  import Frames
  import Wire
  import Places
  import Chopped
  import MainLoop

  ghost predicate AllFit(b: Body)
    requires HasRow(b)
  {
    Every(Fits, Row(b), Values(b))
  }

  ghost predicate AllHold(b: Body)
    requires HasRow(b)
  {
    Every(Holds, Row(b), Values(b))
  }

  ghost predicate AllApart(b: Body)
    requires HasRow(b)
  {
    Every(IsApart, Row(b), Values(b))
  }

  ghost predicate AllPass(b: Body)
    requires HasRow(b)
  {
    Every(Passes, Row(b), Values(b))
  }

  ghost predicate AllKeep(b: Body)
    requires HasRow(b)
  {
    Every(Keeps, Row(b), Values(b))
  }

  lemma RowsAreWellMade(b: Body)
    requires HasRow(b)
    ensures forall r | r in Row(b) :: WellMade(r)
    ensures |Row(b)| > 0 && Row(b)[0].mark && (Row(b)[0].store.Copy? ==> Row(b)[0].min > 0)
    ensures !Row(b)[0].store.Skip? && !Row(b)[0].optional
  {
    hide WellMade, InfoRules, WidthRules, StyleRules, BitmapRules, DisplayRules, KeyRules, ArrowRules, DeviceRules,
         SaleRules, MoneyRules;
    RulesAreWellMade();
    InfoWellMade();
    D5WellMade();
    SaleWellMade();
  }

  lemma InfoWellMade()
    ensures forall r | r in InfoRules() :: WellMade(r)
    ensures |InfoRules()| == 4 && InfoRules()[0] == TextRule(4)
  {
    hide WellMade;
    RulesAreWellMade();
  }

  lemma D5WellMade()
    ensures forall r | r in WidthRules() || r in StyleRules() || r in BitmapRules()
            || r in DisplayRules() :: WellMade(r)
    ensures forall r | r in KeyRules() || r in ArrowRules() || r in DeviceRules() :: WellMade(r)
    ensures |WidthRules()| == 4 && WidthRules()[0] == NumberRule(0x100)
  {
    hide WellMade;
    RulesAreWellMade();
  }

  lemma SaleWellMade()
    ensures forall r | r in SaleRules() || r in MoneyRules() :: WellMade(r)
    ensures |SaleRules()| == 5 && SaleRules()[0] == TrxRule()
  {
    hide WellMade;
    RulesAreWellMade();
  }

  lemma WellMadeIsProper(g: seq<Rule>)
    requires forall r | r in g :: WellMade(r)
    ensures Separated(g) && forall r | r in g :: Proper(r)
  {
  }

  lemma FirstFilled(b: Body)
    requires HasRow(b) && AllFit(b) && |Row(b)| > 0 && Passes(Row(b)[0], Values(b)[0])
    ensures Row(b)[0].mark && Content(Values(b)[0]) != []
  {
    hide Row, Values, Content, Fits, WellMade;
    RowsAreWellMade(b);
    if !Row(b)[0].store.Copy? {
      OtherContents(Row(b)[0], Values(b)[0]);
    }
  }

  // ----- the machine of a body on the row that is written

  /** Field k is read whole. */
  ghost predicate Reads(b: Body, k: nat)
    requires HasRow(b) && |Row(b)| == |Values(b)| && k < |Row(b)|
  {
    Holds(Row(b)[k], Values(b)[k]) && Passes(Row(b)[k], Values(b)[k])
  }

  ghost predicate IsKept(r: Rule, v: Value, c: Captured) {
    && c != Wild && (r.store.UnHex? ==> |Unhexed(Seen(c))| == r.store.width)
    && Shaped(r.store, Stores(r.store, c))
    && (Stores(r.store, c) == v <==> Keeps(r, v))
  }

  /** What is captured of a field that is read, with all before it. */
  lemma CaptureKept(b: Body, k: nat)
    requires HasRow(b) && AllFit(b) && k < |Row(b)|
    requires forall j | 0 <= j <= k :: Reads(b, j)
    ensures IsKept(Row(b)[k], Values(b)[k], CaptureOf(Row(b), Texts(Values(b)), k))
  {
    hide Row, Values, Content, Fits, WellMade, Keeps, Stores, Unhexed, Shaped, IsCapture, Since, CaptureOf, Clean;
    var g, ts := Row(b), Texts(Values(b));
    RowsAreWellMade(b);
    forall j | 0 <= j < k ensures Clean(g[j], ts[j]) {
      assert Reads(b, j);
    }
    assert Reads(b, k);
    CaptureMeans(g, ts, k);
    assert Reads(b, 0);
    FirstFilled(b);
    if k > 0 {
      SinceFirst(g, ts, k);
    }
    FieldKept(g[k], Values(b)[k], CaptureOf(g, ts, k), Since(g, ts, k).Some?);
  }

  lemma FirstUnread(b: Body) returns (bad: nat)
    requires HasRow(b) && |Row(b)| == |Values(b)| && !(AllHold(b) && AllPass(b))
    ensures bad < |Row(b)| && !Reads(b, bad) && forall k | 0 <= k < bad :: Reads(b, k)
  {
    hide Row, Values, Passes, Holds;
    bad := 0;
    while bad < |Row(b)| && Reads(b, bad)
      invariant bad <= |Row(b)| && forall k | 0 <= k < bad :: Reads(b, k)
    {
      bad := bad + 1;
    }
    AllRead(b);
  }

  lemma AllRead(b: Body)
    requires HasRow(b) && |Row(b)| == |Values(b)|
    ensures (forall k | 0 <= k < |Row(b)| :: Reads(b, k)) <==> AllHold(b) && AllPass(b)
  {
    hide Row, Values, Passes, Holds;
    if AllHold(b) && AllPass(b) {
      assert forall k | 0 <= k < |Row(b)| :: Reads(b, k);
    } else if !AllHold(b) {
      var k :| 0 <= k < |Row(b)| && !Holds(Row(b)[k], Values(b)[k]);
      assert !Reads(b, k);
    } else {
      var k :| 0 <= k < |Row(b)| && !Passes(Row(b)[k], Values(b)[k]);
      assert !Reads(b, k);
    }
  }

  lemma ReadsWhole(b: Body, n: nat)
    requires HasRow(b) && |Row(b)| == |Values(b)| && n <= |Row(b)| && forall k | 0 <= k < n :: Reads(b, k)
    ensures forall k | 0 <= k < n :: IsRead(Row(b)[k], Texts(Values(b))[k])
  {
    hide Row, Values, Content, WellMade, Clean, LongEnough;
    RowsAreWellMade(b);
    WellMadeIsProper(Row(b));
    forall k | 0 <= k < n ensures IsRead(Row(b)[k], Texts(Values(b))[k]) {
      assert Reads(b, k) && Row(b)[k] in Row(b);
    }
  }

  /** A row whose fields are all read. */
  lemma WholeRow(b: Body, s: seq<byte>, p: nat) returns (h: Halt)
    requires HasRow(b) && AllFit(b) && AllHold(b) && AllPass(b) && p <= |s| && s[p..] == Flat(BodyParts(b))
    ensures h == Run(Row(b), START, s, p) && !h.failed && h.p == |s| && h.cf.count == 0
    ensures |h.cf.out| == h.cf.rule == |Row(b)|
    ensures forall k | 0 <= k < |Row(b)| :: IsKept(Row(b)[k], Values(b)[k], h.cf.out[k])
  {
    hide Row, Values, BodyParts, Flat, Joined, Content, Fits, Holds, Passes, IsRead, IsKept, Run;
    var g, ts := Row(b), Texts(Values(b));
    BodyIsRow(b);
    assert g[..|ts|] == g;
    assert forall k | 0 <= k < |g| :: Reads(b, k);
    ReadsWhole(b, |g|);
    h := RowRead(g, ts, s, p);
    forall k | 0 <= k < |g| ensures IsKept(g[k], Values(b)[k], h.cf.out[k]) {
      CaptureKept(b, k);
    }
  }

  /** A row with a field that is not: the machine stops there, at a separator or a byte it cannot hold. */
  lemma BrokenRow(b: Body, s: seq<byte>, p: nat) returns (h: Halt, r: Rule)
    requires HasRow(b) && AllFit(b) && AllApart(b) && !(AllHold(b) && AllPass(b))
    requires p <= |s| && s[p..] == Flat(BodyParts(b))
    ensures h == Run(Row(b), START, s, p) && h.failed && h.p < |s|
    ensures |h.cf.out| == h.cf.rule < |Row(b)|
    ensures forall k | 0 <= k < |h.cf.out| :: IsKept(Row(b)[k], Values(b)[k], h.cf.out[k])
    ensures r in Row(b) && (s[h.p] == FS || (!InClass(r.cls, s[h.p]) && !IsSeparator(s[h.p])))
  {
    hide Row, Values, BodyParts, Flat, Joined, Content, Fits, Clean, LongEnough, IsRead, IsKept, Run, WellMade,
         InClass, IsSeparator;
    var g, ts := Row(b), Texts(Values(b));
    BodyIsRow(b);
    RowsAreWellMade(b);
    WellMadeIsProper(g);
    assert g[..|ts|] == g;
    var bad := FirstUnread(b);
    r := g[bad];
    assert r in g;
    ReadsWhole(b, bad);
    if Holds(g[bad], Values(b)[bad]) {
      h := RowStuck(g, ts, s, p, bad);
      ShortNeedsFs(g[bad], Values(b)[bad]);
    } else {
      var i := FirstForeign(g[bad], Values(b)[bad]);
      SeparatorIsOne(g[bad]);
      h := RowHalts(g, ts, s, p, bad, i);
    }
    forall k | 0 <= k < bad ensures IsKept(g[k], Values(b)[k], h.cf.out[k]) {
      CaptureKept(b, k);
    }
  }

  lemma ShortNeedsFs(r: Rule, v: Value)
    requires WellMade(r) && !Passes(r, v)
    ensures r.sep == FS
  {
  }

  lemma SeparatorIsOne(r: Rule)
    requires WellMade(r)
    ensures IsSeparator(r.sep)
  {
  }

  /** A machine that gets through a written row, whatever that holds, has read all its fields. */
  lemma ThroughIsWhole(b: Body, s: seq<byte>, p: nat)
    requires HasRow(b) && |Row(b)| == |Values(b)| && p <= |s| && s[p..] == Flat(BodyParts(b))
    requires var h := Run(Row(b), START, s, p); !h.failed && h.cf.count == 0
    ensures AllHold(b) && AllPass(b)
  {
    hide Row, Values, BodyParts, Flat, Joined, Content, Clean, LongEnough, Run, WellMade;
    var g, ts := Row(b), Texts(Values(b));
    BodyIsRow(b);
    RowsAreWellMade(b);
    WellMadeIsProper(g);
    OutWithinRow(g, START, s, p);
    OnlyReading(g, ts, s, p);
    forall k | 0 <= k < |g| ensures Reads(b, k) {
      assert Clean(g[k], ts[k]) && LongEnough(g[k], ts[k]);
    }
    assert forall k | 0 <= k < |g| :: Reads(b, k);
  }

  // ----- the body parser

  lemma ValuesOutcome(b: Body, out: seq<Captured>)
    requires HasRow(b) && |Row(b)| == |Values(b)| == |out|
    requires forall k | 0 <= k < |Row(b)| :: IsKept(Row(b)[k], Values(b)[k], out[k])
    ensures var vs := ValuesRead(Row(b), out);
            AllShaped(Row(b), vs) && (vs == Values(b) <==> AllKeep(b))
  {
    hide Row, Values, Keeps, Stores, Shaped;
    var vs := ValuesRead(Row(b), out);
    assert forall k | 0 <= k < |Row(b)| :: vs[k] == Stores(Row(b)[k].store, out[k]);
  }

  lemma NeedOfRow(b: Body)
    requires HasRow(b)
    ensures Need(TypeOf(b)) <= |Row(b)| && TypeOf(b) != FROB_T4
    ensures TypeOf(b) in {FROB_T1, FROB_T2, FROB_T4, FROB_D4} ==> b.BodyT2?
  {
  }

  lemma KeptIsSafe(b: Body, out: seq<Captured>)
    requires HasRow(b) && |out| <= |Row(b)| == |Values(b)|
    requires forall k | 0 <= k < |out| :: IsKept(Row(b)[k], Values(b)[k], out[k])
    ensures IsSafe(TypeOf(b), Row(b), out)
  {
    hide Row, Values, Stores, Shaped, TypeOf, Unhexed, IsType;
    NeedOfRow(b);
  }

  /** The parser on a row whose fields are all read. */
  lemma WholeBody(b: Body, s: seq<byte>, p: nat)
    requires HasRow(b) && AllFit(b) && AllHold(b) && AllPass(b) && p <= |s| && s[p..] == Flat(BodyParts(b))
    ensures var r := ReadBody(TypeOf(b), s, p);
            r.code == H.Ok && r.p == |s| && r.body.Some? && (r.body.value == b <==> AllKeep(b))
  {
    hide Row, Values, BodyParts, Flat, Grammar, Build, Run, Keeps, IsKept, AllPass, AllHold, AllKeep, TypeOf, IsType,
         ValuesRead;
    var h := WholeRow(b, s, p);
    var g := Row(b);
    RowIsGrammar(b, |s|);
    NeedOfRow(b);
    KeptIsSafe(b, h.cf.out);
    ValuesOutcome(b, h.cf.out);
    BuildIsInjective(b, ValuesRead(g, h.cf.out));
  }

  /** ... and on one that holds no separators, but a field that is not. */
  lemma BrokenBody(b: Body, s: seq<byte>, p: nat)
    requires HasRow(b) && AllFit(b) && AllApart(b) && !(AllHold(b) && AllPass(b))
    requires p <= |s| && s[p..] == Flat(BodyParts(b))
    ensures var r := ReadBody(TypeOf(b), s, p);
            r.body.Some? && (r.code != H.Ok || (r.p < |s| && A.Run(A.FRESH, s, r.p) == A.Ended(A.FRESH, r.p, true)))
  {
    hide Row, Values, BodyParts, Flat, Grammar, Build, Run, IsKept, AllPass, AllHold, AllApart, TypeOf, IsType,
         ValuesRead, InClass, IsSeparator;
    var h, r := BrokenRow(b, s, p);
    RowIsGrammar(b, |s|);
    NeedOfRow(b);
    KeptIsSafe(b, h.cf.out);
    if b.BodyT2? {
      NoAttribute(b, r, s, h.p);
    }
  }

  lemma NoAttribute(b: Body, r: Rule, s: seq<byte>, p: nat)
    requires b.BodyT2? && r in Row(b) && p < |s|
    requires s[p] == FS || (!InClass(r.cls, s[p]) && !IsSeparator(s[p]))
    ensures A.Run(A.FRESH, s, p) == A.Ended(A.FRESH, p, true)
  {
    assert r.cls == Printable;
  }

  /** A body that is accepted, of any type but T2, has been read whole. */
  lemma AcceptedIsWhole(b: Body, s: seq<byte>, p: nat)
    requires HasRow(b) && AllFit(b) && !b.BodyT2? && p <= |s| && s[p..] == Flat(BodyParts(b))
    requires var r := ReadBody(TypeOf(b), s, p); r.code == H.Ok && r.body.Some?
    ensures AllHold(b) && AllPass(b)
  {
    hide Row, Values, BodyParts, Flat, Grammar, Build, Run, Fits, AllPass, AllHold, TypeOf, IsType, ValuesRead;
    RowIsGrammar(b, |s|);
    NeedOfRow(b);
    OutWithinRow(Row(b), START, s, p);
    ThroughIsWhole(b, s, p);
  }

  // ----- T2, whose machine may stop anywhere

  lemma {:induction false} TextOfStored(t: seq<byte>, width: nat)
    ensures forall b | b in Text(Stored(t, width)) :: b in t
  {
    var x := Text(Stored(t, width));
    forall b | b in x ensures b in t {
      var i :| 0 <= i < |x| && x[i] == b;
      assert x[i] == Stored(t, width)[i] && b != 0;
    }
  }

  lemma CapturedIsPlain(r: Rule, c: Captured, a: seq<byte>, width: nat)
    requires r == TextRule(width) || r == MaybeRule(width)
    requires IsTaken(r, c) && a == Stored(Seen(c), width)
    ensures IsPlain(a)
  {
    TextOfStored(Seen(c), width);
  }

  /** A T2 can only come back with the texts its machine can read. */
  lemma T2IsPlain(b: Body, s: seq<byte>, p: nat)
    requires b.BodyT2? && p <= |s| && ReadBody(FROB_T2, s, p).body == Some(b)
    ensures PlainInfo(b.info)
  {
    hide Run, Stored, IsPlain, Text;
    var g := InfoRules();
    assert Grammar(FROB_T2, |s|) == Some(g);
    var h := Run(g, START, s, p);
    OutWithinRow(g, START, s, p);
    NothingIsClean(g, s, p);
    TakenIsClean(g, START, s, p);
    var vs := ValuesRead(g, h.cf.out);
    assert b.info == InfoOf(vs);
    forall k | 0 <= k < 4 ensures IsPlain(Chars(vs[k])) {
      var width := if k == 0 then 4 else 20;
      var c := if k < |h.cf.out| then h.cf.out[k] else Absent;
      if k < |h.cf.out| {
        assert IsTaken(g[k], c);
      }
      CapturedIsPlain(if k < |h.cf.out| then g[k] else MaybeRule(width), c, Chars(vs[k]), width);
    }
  }

  /** The texts are cut otherwise than they were written: four fields, and attributes behind them. */
  ghost predicate IsAttributed(b: Body) {
    exists ts: seq<seq<byte>>, us: seq<seq<byte>> ::
      && IsRow(InfoRules(), ts) && us != [] && us[0] != [] && (forall u | u in us :: A.IsUnit(u))
      && Flat(BodyParts(b)) == Joined(InfoRules(), ts) + A.Units(us) + [FS]
  }

  ghost predicate IsAccepted(t: int, s: seq<byte>, p: nat)
    requires p <= |s|
  {
    var r := ReadBody(t, s, p);
    && r.body.Some? && r.code == H.Ok
    && var a := A.Run(A.FRESH, s, r.p); Wild !in a.cf.units && A.IsFinal(a)
  }

  lemma InfoIsProper()
    ensures |InfoRules()| == 4 && Separated(InfoRules())
    ensures forall r | r in InfoRules() :: Proper(r) && r.cls == Printable && r.max.None? && r.sep == FS
  {
  }

  lemma T2Grammar(s: seq<byte>, p: nat)
    requires p <= |s|
    ensures var h := Run(InfoRules(), START, s, p);
            && ReadBody(FROB_T2, s, p).p == h.p && ReadBody(FROB_T2, s, p).code == H.Ok
            && (ReadBody(FROB_T2, s, p).body.Some? <==> Wild !in h.cf.out)
  {
    hide Run, IsType, ValuesRead, Build;
    OutWithinRow(InfoRules(), START, s, p);
    var h := Run(InfoRules(), START, s, p);
    if Wild in h.cf.out {
      var k :| 0 <= k < |h.cf.out| && h.cf.out[k] == Wild;
    }
  }

  lemma FlatEndsWithFs(b: Body)
    requires b.BodyT2?
    ensures var f := Flat(BodyParts(b)); f != [] && f[|f| - 1] == FS
  {
    hide Flat, Text;
    var ps := BodyParts(b);
    var n := |ps| - 1;
    assert ps == ps[..n] + [Sep(FS)];
    FlatConcat(ps[..n], [Sep(FS)]);
    FlatOne(Sep(FS));
  }

  /** A T2 that is accepted was read whole, or cut otherwise. */
  lemma T2Accepted(b: Body, s: seq<byte>, p: nat)
    requires b.BodyT2? && p <= |s| && s[p..] == Flat(BodyParts(b)) && IsAccepted(FROB_T2, s, p)
    ensures (AllHold(b) && AllPass(b)) || IsAttributed(b)
  {
    hide Flat, BodyParts, Run, A.Run, Joined, A.Units, Values, AllHold, AllPass, InfoRules, ReadBody, A.IsFinal,
         A.IsAttributes, Accepts, InClass;
    var g := InfoRules();
    var h := Run(g, START, s, p);
    InfoIsProper();
    T2Grammar(s, p);
    FlatEndsWithFs(b);
    assert s[|s| - 1] == s[p..][|s[p..]| - 1];
    if !h.failed {
      EndsBetween(g, START, s, p, FS);
      SameLength(b);
      ThroughIsWhole(b, s, p);
    } else {
      StopsForReason(g, START, s, p);
      A.AttributesMean(s, h.p);
      A.UnsetExactly(s, h.p);
      TextIsTaken(g, h, s);
      var ts := FieldsBefore(g, h, s, p);
      var us := A.UnitsFound(s, h.p);
      assert s[p..] == s[p..h.p] + s[h.p..];
      assert s[p..] == Joined(g, ts) + A.Units(us) + [FS];
    }
  }

  lemma TextIsTaken(g: seq<Rule>, h: Halt, s: seq<byte>)
    requires h.failed && h.p < |s| && h.cf.rule <= |g| && A.IsAttributes(s, h.p) && s[h.p] != US
    requires h.cf.rule == |g| || !Accepts(g[h.cf.rule], h.cf.count, s[h.p])
    requires forall r | r in g :: r.cls == Printable && r.max.None?
    ensures h.cf.rule == |g|
  {
    assert forall k | 0 <= k < |g| :: g[k] in g;
  }

  lemma FieldsBefore(g: seq<Rule>, h: Halt, s: seq<byte>, p: nat) returns (ts: seq<seq<byte>>)
    requires p <= |s| && h == Run(g, START, s, p) && h.cf.rule == |g| && h.cf.count == 0
    ensures IsRow(g, ts) && s[p..h.p] == Joined(g, ts)
  {
    hide Run, Joined, Clean, LongEnough;
    RunPrefix(g, START, s, p);
    NothingIsClean(g, s[..h.p], p);
    EmptyGrammar(g, s[..h.p], p);
    ts := ReadIsRow(g, START, s[..h.p], p);
    assert g[0..|g|] == g && s[..h.p][p..] == s[p..h.p];
  }

  lemma EmptyGrammar(g: seq<Rule>, s: seq<byte>, p: nat)
    requires p <= |s|
    ensures 0 == |g| ==> START.count == 0
  {
  }

  /** ... and one that is cut otherwise is accepted. */
  lemma AttributedIsAccepted(b: Body, s: seq<byte>, p: nat)
    requires b.BodyT2? && p <= |s| && s[p..] == Flat(BodyParts(b)) && IsAttributed(b)
    ensures IsAccepted(FROB_T2, s, p)
  {
    hide Flat, BodyParts, Run, A.Run, Joined, A.Units, InfoRules, ReadBody, A.IsFinal, Clean, LongEnough, A.IsUnit;
    var g := InfoRules();
    var ts: seq<seq<byte>>, us: seq<seq<byte>> :|
      && IsRow(g, ts) && us != [] && us[0] != [] && (forall u | u in us :: A.IsUnit(u))
      && Flat(BodyParts(b)) == Joined(g, ts) + A.Units(us) + [FS];
    var q := p + |Joined(g, ts)|;
    InfoIsProper();
    T2Grammar(s, p);
    assert s[..q][p..] == s[p..][..q - p] == Joined(g, ts);
    assert s[q..] == s[p..][q - p..] == A.Units(us) + [FS];
    assert g[..|ts|] == g;
    forall k | 0 <= k < |ts| ensures IsRead(g[k], ts[k]) {
      assert g[k] in g;
    }
    var h := RowRead(g, ts, s[..q], p);
    RunExtends(g, START, s, p, q);
    NothingLeft(g, h.cf, s, q);
    InfoCaptured(ts);
    A.UnitsBegin(us);
    assert s[q] == s[q..][0];
    FirstIsText(us[0]);
    A.UnsetExactly(s, q);
    A.UnitsCopied(us, s, q);
  }

  lemma FirstIsText(u: seq<byte>)
    requires A.IsUnit(u) && u != []
    ensures u[0] != US
  {
    assert u[0] in u;
  }

  lemma NothingLeft(g: seq<Rule>, cf: Conf, s: seq<byte>, q: nat)
    requires q < |s| && Sane(cf, q) && cf.rule == |g|
    ensures Run(g, cf, s, q) == Halt(cf, q, true)
  {
  }

  lemma InfoCaptured(ts: seq<seq<byte>>)
    requires IsRow(InfoRules(), ts)
    ensures Wild !in Captures(InfoRules(), ts, |ts|)
  {
    hide Since, Clean;
    assert LongEnough(InfoRules()[0], ts[0]);
  }

  /** It happens: an FS in the last text ends the row, and a US behind it makes the rest an attribute. */
  lemma TextAsAttribute(i: DeviceInfo, x: seq<byte>, u: seq<byte>)
    requires Text(i.version) != [] && IsPlain(i.version) && IsPlain(i.vendor) && IsPlain(i.deviceType)
    requires A.IsUnit(x) && A.IsUnit(u) && u != [] && Text(i.deviceId) == x + [FS] + u + [US]
    ensures IsAttributed(BodyT2(i)) && !Plain(BodyT2(i))
  {
    hide Flat, BodyParts, Joined, Text, A.Units;
    var b, g := BodyT2(i), InfoRules();
    var three := [Text(i.version), Text(i.vendor), Text(i.deviceType)];
    BodyIsRow(b);
    assert Texts(Values(b)) == three + [Text(i.deviceId)] && g[..3] + [g[3]] == g;
    JoinedConcat(g[..3], three, [g[3]], [Text(i.deviceId)]);
    JoinedConcat(g[..3], three, [g[3]], [x]);
    JoinedOne(g[3], Text(i.deviceId));
    JoinedOne(g[3], x);
    A.OneUnit(u);
    var ts := three + [x];
    assert IsRow(g, ts);
    assert Flat(BodyParts(b)) == Joined(g, ts) + A.Units([u]) + [FS];
    assert FS in Text(i.deviceId) && !IsPlain(i.deviceId);
  }

  lemma JoinedOne(r: Rule, t: seq<byte>)
    ensures Joined([r], [t]) == t + [r.sep]
  {
    assert Joined([r][1..], [t][1..]) == [];
  }

  // ----- the whole message

  /** What stands between STX and ETX. */
  function Payload(m: Msg): seq<byte> {
    PrintHex(m.token) + [FS] + TypeToString(TypeOf(m.body)) + [FS] + Flat(BodyParts(m.body))
  }

  lemma FullIsFramed(m: Msg)
    ensures Full(m) == [STX] + Payload(m) + [ETX, Lrc(Payload(m) + [ETX])]
  {
    hide Flat, BodyParts, PrintHex, TypeToString, IsType, TypeOf, Lrc;
    var a, b, c, d, e := Sep(STX), Token(m.token), Sep(FS), Type(TypeOf(m.body)), Sep(FS);
    var head := [a, b, c, d, e];
    assert [a] + [b] + [c] + [d] + [e] == head;
    FlatConcat([a] + [b] + [c] + [d], [e]);
    FlatConcat([a] + [b] + [c], [d]);
    FlatConcat([a] + [b], [c]);
    FlatConcat([a], [b]);
    FlatOne(a);
    FlatOne(b);
    FlatOne(c);
    FlatOne(d);
    FlatOne(e);
    FlatConcat(head, BodyParts(m.body));
    FlatConcat(head + BodyParts(m.body), [Sep(ETX)]);
    FlatOne(Sep(ETX));
    assert Flat(OpenParts(m)) == [STX] + Payload(m) + [ETX];
    assert Flat(OpenParts(m))[1..] == Payload(m) + [ETX];
    var last := Sep(Lrc(Payload(m) + [ETX]));
    FlatConcat(OpenParts(m), [last]);
    FlatOne(last);
  }

  lemma NamesOfTypes(b: Body)
    ensures var n := TypeToString(TypeOf(b));
            H.IsName(n[0], n[1]) <==> !b.BodyI1? && !b.BodyA2?
  {
    hide IsType;
    if TypeOf(b) < FROB_PAYMENT {
      LocalNames(b);
    } else {
      OtherNames(b);
    }
  }

  lemma LocalNames(b: Body)
    requires TypeOf(b) < FROB_PAYMENT
    ensures var n := TypeToString(TypeOf(b)); H.IsName(n[0], n[1]) && !b.BodyI1? && !b.BodyA2?
  {
    hide IsType;
  }

  lemma OtherNames(b: Body)
    requires TypeOf(b) >= FROB_PAYMENT
    ensures var n := TypeToString(TypeOf(b)); H.IsName(n[0], n[1]) <==> !b.BodyI1? && !b.BodyA2?
  {
    hide IsType;
  }

  lemma HeadBytes(m: Msg)
    requires m.token < 0x100_0000
    ensures var s, n, t := Payload(m), |PrintHex(m.token)|, TypeToString(TypeOf(m.body));
            && 1 <= n <= 6 && n + 4 <= |s| && s[..n] == PrintHex(m.token) && s[n] == FS
            && s[n + 1] == t[0] && s[n + 2] == t[1] && s[n + 3] == FS
            && s[n + 4..] == Flat(BodyParts(m.body))
            && forall k | 0 <= k < n :: IsXdigit(s[k])
  {
    hide PrintHex, TypeToString, TypeOf, Flat, BodyParts, IsType;
    var s, x := Payload(m), PrintHex(m.token);
    assert Pow16(6) == 0x100_0000;
    HexLength(m.token, 6);
    HexRoundTrip(m.token);
    assert |TypeToString(TypeOf(m.body))| == 2;
    assert s[..|x|] == x;
    assert forall k | 0 <= k < |x| :: s[k] == x[k] && x[k] in x;
  }

  lemma HeaderIsUnique(s: seq<byte>, n: nat, k: nat)
    requires n < |s| && s[n] == FS && (forall j | 0 <= j < n :: IsXdigit(s[j])) && H.IsHeader(s, k)
    ensures k == n
  {
    hide H.IsName;
    assert !IsXdigit(FS) && s[k] == FS;
  }

  /** The header is read back: token, type, and the cursor at the body. I1 and A2 have no reader. */
  lemma HeadOutcome(m: Msg, want: int)
    requires m.token < 0x100_0000 && want in {0, TypeOf(m.body) as int}
    ensures var h := ReadHead(Payload(m), want, 0);
            if m.body.BodyI1? || m.body.BodyA2? then h.code == H.BadMsg
            else h == Head(H.Ok, |PrintHex(m.token)| + 4, TypeOf(m.body), m.token)
  {
    hide PrintHex, ParseHex, Flat, BodyParts, IsType, TypeToString, TypeOf, DeserializeType, Payload;
    var s, n := Payload(m), |PrintHex(m.token)|;
    HeadBytes(m);
    HexRoundTrip(m.token);
    NamesOfTypes(m.body);
    TypeRoundTrip(TypeOf(m.body));
    H.HeaderFound(s);
    forall k: nat | H.IsHeader(s, k) ensures k == n {
      HeaderIsUnique(s, n, k);
    }
    if !m.body.BodyI1? && !m.body.BodyA2? {
      assert H.IsHeader(s, n);
      assert H.Run(H.InToken(0), s, H.Scan(0, None, None)) == H.Scan(n + 4, Some(n), Some(n + 3));
      assert DeserializeType(s[n + 1], s[n + 2]) == TypeOf(m.body);
    }
  }

  lemma BareOutcome(b: Body, s: seq<byte>)
    requires IsBare(b)
    ensures ReadBody(TypeOf(b), s, |s|) == Inner(H.Ok, |s|, Some(b)) && Flat(BodyParts(b)) == []
  {
  }

  /** The thirteen types that are read in the form they are written in. */
  predicate Readable(m: Msg) {
    (HasRow(m.body) || IsBare(m.body)) && Sized(m.body) && m.token < 0x100_0000
  }

  lemma RowConditions(b: Body)
    requires HasRow(b) && Sized(b)
    ensures AllFit(b) && (AllHold(b) <==> Plain(b)) && (AllPass(b) <==> Filled(b)) && (AllApart(b) <==> Whole(b))
    ensures Filled(b) ==> (AllKeep(b) <==> Restorable(b))
  {
    hide Every, OnBody, Row, Values, Plain, Filled, Sized, Restorable, Whole;
    EveryField(Fits, b);
    EveryField(Holds, b);
    EveryField(IsApart, b);
    EveryField(Passes, b);
    EveryField(Keeps, b);
    BodyFits(b);
    BodyHolds(b);
    EveryApart(b);
    BodyPasses(b);
    if Filled(b) {
      BodyKept(b);
    }
  }

  lemma PlainIsWhole(b: Body)
    requires HasRow(b) && AllHold(b) && |Row(b)| == |Values(b)|
    ensures AllApart(b)
  {
    hide Row, Values, Content, Clean, WellMade, InClass, Separators;
    RowsAreWellMade(b);
    WellMadeIsProper(Row(b));
    forall k | 0 <= k < |Row(b)| ensures IsApart(Row(b)[k], Values(b)[k]) {
      assert Holds(Row(b)[k], Values(b)[k]) && Row(b)[k] in Row(b);
      CleanHasNone(Row(b)[k], Content(Values(b)[k]));
    }
  }

  lemma BareConditions(b: Body)
    requires IsBare(b)
    ensures Filled(b) && Plain(b) && Restorable(b) && Whole(b)
  {
  }

  lemma NothingBehind(s: seq<byte>)
    ensures A.Run(A.FRESH, s, |s|) == A.Ended(A.FRESH, |s|, false) && A.Copied([]) == []
  {
  }

  /** Reading what was written: accepted, if all fields are read whole. */
  lemma WholeIsAccepted(m: Msg, want: int)
    requires Readable(m) && want in {0, TypeOf(m.body) as int} && Filled(m.body) && Plain(m.body)
    ensures var r := Parse(Payload(m), want);
            r.Accepted? && r.attr == [] && r.msg.token == m.token && TypeOf(r.msg.body) == TypeOf(m.body)
            && (r.msg == m <==> Restorable(m.body))
  {
    hide PrintHex, Flat, BodyParts, IsType, TypeToString, TypeOf, Payload, ReadHead, ReadBody, Plain, Filled, Sized,
         Restorable, AllFit, AllHold, AllApart, AllPass, AllKeep, A.Run;
    var s, p := Payload(m), |PrintHex(m.token)| + 4;
    HeadBytes(m);
    HeadOutcome(m, want);
    NothingBehind(s);
    if IsBare(m.body) {
      BareOutcome(m.body, s);
      assert s[p..] == [];
      BareConditions(m.body);
    } else {
      RowConditions(m.body);
      WholeBody(m.body, s, p);
    }
  }

  /** Rejected, if one is not, and no text holds a separator. */
  lemma BrokenIsRejected(m: Msg, want: int)
    requires Readable(m) && want in {0, TypeOf(m.body) as int} && Whole(m.body) && !(Filled(m.body) && Plain(m.body))
    ensures Parse(Payload(m), want) == Rejected
  {
    hide PrintHex, Flat, BodyParts, IsType, TypeToString, TypeOf, Payload, ReadHead, ReadBody, Plain, Filled, Sized,
         Whole, AllFit, AllHold, AllApart, AllPass, AllKeep, A.Run;
    var s, p := Payload(m), |PrintHex(m.token)| + 4;
    HeadBytes(m);
    HeadOutcome(m, want);
    if IsBare(m.body) {
      BareConditions(m.body);
    } else {
      RowConditions(m.body);
      BrokenBody(m.body, s, p);
    }
  }

  /** A T2 is accepted exactly if it is read whole, or cut otherwise than it was written. */
  lemma T2Outcome(m: Msg, want: int)
    requires Readable(m) && want in {0, TypeOf(m.body) as int} && m.body.BodyT2?
    ensures Parse(Payload(m), want).Accepted? <==> (Filled(m.body) && Plain(m.body)) || IsAttributed(m.body)
  {
    hide PrintHex, Flat, BodyParts, IsType, TypeToString, Payload, ReadHead, ReadBody, Filled, Plain, Sized, AllFit,
         AllHold, AllApart, AllPass, AllKeep, A.Run, A.IsFinal, IsAttributed;
    var s, p := Payload(m), |PrintHex(m.token)| + 4;
    HeadBytes(m);
    HeadOutcome(m, want);
    RowConditions(m.body);
    assert Parse(s, want).Accepted? <==> IsAccepted(FROB_T2, s, p);
    if Filled(m.body) && Plain(m.body) {
      WholeIsAccepted(m, want);
    } else if IsAttributed(m.body) {
      AttributedIsAccepted(m.body, s, p);
    } else if IsAccepted(FROB_T2, s, p) {
      T2Accepted(m.body, s, p);
    }
  }

  /** What is accepted was written of whole fields; a T2 that comes back was. */
  lemma AcceptedWasPlain(m: Msg, want: int)
    requires Readable(m) && want in {0, TypeOf(m.body) as int} && Parse(Payload(m), want).Accepted?
    requires m.body.BodyT2? ==> Parse(Payload(m), want).msg == m
    ensures Plain(m.body) && Filled(m.body)
  {
    hide PrintHex, Flat, BodyParts, IsType, TypeToString, Payload, ReadHead, ReadBody, Filled, Sized, PlainInfo,
         Whole, AllFit, AllHold, AllApart, AllPass, AllKeep, A.Run;
    var s, p := Payload(m), |PrintHex(m.token)| + 4;
    HeadBytes(m);
    HeadOutcome(m, want);
    if IsBare(m.body) {
      BareConditions(m.body);
    } else {
      RowConditions(m.body);
      if m.body.BodyT2? {
        T2IsPlain(m.body, s, p);
        PlainIsWhole(m.body);
        if !Filled(m.body) {
          BrokenIsRejected(m, want);
        }
      } else {
        AcceptedIsWhole(m.body, s, p);
      }
    }
  }

  /** Writing and reading, for every content of the arrays. The reader gives back the message exactly if
      nothing is empty that it insists on, all texts are printable and amounts digits, and everything else can
      be restored. It accepts what was written exactly under the first two, but for a T2 whose texts hold
      separators such that it is read as four other fields with attributes behind them. What holds no
      separator in its texts and is not accepted, is rejected. */
  lemma RoundTrip(m: Msg, want: int)
    requires Readable(m) && want in {0, TypeOf(m.body) as int}
    ensures var r := Parse(Payload(m), want);
            && (r == Accepted(m, []) <==> Filled(m.body) && Plain(m.body) && Restorable(m.body))
            && (r.Accepted? <==> (Filled(m.body) && Plain(m.body)) || (m.body.BodyT2? && IsAttributed(m.body)))
            && (!m.body.BodyT2? || Whole(m.body) ==> (r.Accepted? <==> Filled(m.body) && Plain(m.body)))
            && (Whole(m.body) ==> r.Accepted? || r == Rejected)
  {
    hide Parse, Payload, Plain, Filled, Restorable, Whole, TypeOf, Sized, IsType, IsAttributed;
    var r := Parse(Payload(m), want);
    if Filled(m.body) && Plain(m.body) {
      WholeIsAccepted(m, want);
    } else if Whole(m.body) {
      BrokenIsRejected(m, want);
    }
    if m.body.BodyT2? {
      T2Outcome(m, want);
    }
    if r.Accepted? && (m.body.BodyT2? ==> r.msg == m) {
      AcceptedWasPlain(m, want);
    }
  }

  // ----- framed

  /** No text that is written holds the byte that ends a frame. */
  ghost predicate EtxFree(b: Body) {
    forall p | p in BodyParts(b) && p.Data? && p.v.Str? :: ETX !in Text(p.v.chars)
  }

  predicate IsItem(p: Part) {
    p.Data? || (p.Sep? && p.b in {FS, US})
  }

  lemma SeparatorIsItem()
    ensures IsItem(Sep(FS))
  {
  }

  lemma DisplayItems(d: D5)
    ensures forall p | p in WidthParts(d) + StyleParts(d) :: IsItem(p)
    ensures forall p | p in BitmapParts(d) + DisplayParts(d) :: IsItem(p)
  {
  }

  lemma KeyItems(d: D5)
    ensures forall p | p in KeyParts(d.keyName) + ArrowParts(d.keyName) + DeviceParts(d) :: IsItem(p)
  {
  }

  lemma {:induction false} VersionItems(vs: seq<seq<byte>>)
    ensures forall p | p in VersionParts(vs) :: IsItem(p)
  {
    if vs != [] {
      VersionItems(vs[..|vs| - 1]);
    }
  }

  lemma BodyItems(b: Body)
    ensures forall p | p in BodyParts(b) :: IsItem(p)
  {
    hide WidthParts, StyleParts, BitmapParts, DisplayParts, KeyParts, ArrowParts, DeviceParts, VersionParts,
         SaleParts, MoneyParts, InfoParts, F, IsItem;
    assert IsItem(Sep(FS)) by {
      SeparatorIsItem();
    }
    match b
    case BodyD5(d) => DisplayItems(d); KeyItems(d);
    case BodyT4(vs) => VersionItems(vs);
    case BodyS1(s) => SaleItems(s);
    case BodyS2(_) => ReceiptItems(b);
    case _ => SmallItems(b);
  }

  lemma SaleItems(s: S1)
    ensures forall p | p in SaleParts(s) + MoneyParts(s) :: IsItem(p)
  {
  }

  lemma ReceiptItems(b: Body)
    requires b.BodyS2?
    ensures forall p | p in BodyParts(b) :: IsItem(p)
  {
  }

  lemma SmallItems(b: Body)
    requires !b.BodyD5? && !b.BodyT4? && !b.BodyS1? && !b.BodyS2?
    ensures forall p | p in BodyParts(b) :: IsItem(p)
  {
  }

  lemma {:induction false} FlatHas(ps: seq<Part>, x: byte)
    ensures x in Flat(ps) <==> exists p :: p in ps && x in Written(p)
    decreases |ps|
  {
    hide Written;
    if ps != [] {
      var n := |ps| - 1;
      FlatHas(ps[..n], x);
      assert forall p :: p in ps <==> p in ps[..n] || p == ps[n];
    }
  }

  lemma OnlyTextsHoldEtx(p: Part)
    requires IsItem(p)
    ensures ETX in Written(p) <==> p.Data? && p.v.Str? && ETX in Text(p.v.chars)
  {
    hide PrintDec, HexBytes;
    if p.Data? && p.v.Num? {
      DecRoundTrip(p.v.n % WORD);
    } else if p.Data? && p.v.Hex? {
      BytesRoundTrip(p.v.bytes);
    }
  }

  lemma NameHasNoEtx(b: Body)
    ensures ETX !in TypeToString(TypeOf(b))
  {
  }

  lemma PayloadEtx(m: Msg)
    ensures Payload(m) != [] && Payload(m)[0] != ETX && (ETX !in Payload(m) <==> EtxFree(m.body))
  {
    hide PrintHex, Flat, BodyParts, IsType, TypeToString, TypeOf, Written;
    HexRoundTrip(m.token);
    assert !IsXdigit(ETX) && PrintHex(m.token)[0] in PrintHex(m.token);
    NameHasNoEtx(m.body);
    FlatHas(BodyParts(m.body), ETX);
    BodyItems(m.body);
    forall p | p in BodyParts(m.body) ensures ETX in Written(p) <==> p.Data? && p.v.Str? && ETX in Text(p.v.chars) {
      OnlyTextsHoldEtx(p);
    }
    assert ETX in Payload(m) <==> ETX in Flat(BodyParts(m.body));
  }

  lemma ChecksumHolds(p: seq<byte>, s: seq<byte>)
    requires s == [STX] + p + [ETX, Lrc(p + [ETX])]
    ensures FrameSpec.IsGood(s, 1, |s| - 2) && s[..|s|] == s && s[1..|s| - 2] == p
  {
    hide Lrc;
    assert s[1..|s| - 1] == p + [ETX];
  }

  lemma NoEtxInside(p: seq<byte>, s: seq<byte>, k: nat)
    requires |s| == |p| + 3 && s[1..|p| + 1] == p && ETX !in p && 1 <= k <= |p|
    ensures s[k] != ETX
  {
    assert s[1..|p| + 1][k - 1] == s[k] && p[k - 1] in p;
  }

  lemma FramedIsFrame(p: seq<byte>, s: seq<byte>)
    requires p != [] && ETX !in p && |s| == |p| + 3 && s[0] == STX && s[1..|p| + 1] == p && s[|p| + 1] == ETX
    ensures FrameSpec.IsFrame(s, 0, 1, |p| + 1)
  {
    forall k | 1 <= k <= |p| ensures s[k] != ETX {
      NoEtxInside(p, s, k);
    }
  }

  lemma GoodFrameIsOk(s: seq<byte>, start: nat, end: nat)
    requires FrameSpec.IsFrame(s, 0, start, end) && FrameSpec.IsGood(s, start, end)
    ensures var o := Fr.Processed(Fr.Fsm(Fr.INITIAL, false, 0, Some(|s|)), s);
            o.code == Fr.Ok && o.fsm.p == start && o.fsm.pe == Some(end)
  {
    hide Lrc, Fr.Scan, FrameSpec.Locate, FrameSpec.IsGood;
    assert s[..|s|] == s;
    Frames.NextMeans(s, 0);
    FrameSpec.ScanLocates(s, 0);
  }

  lemma FramedIsOk(p: seq<byte>, s: seq<byte>)
    requires p != [] && ETX !in p && s == [STX] + p + [ETX, Lrc(p + [ETX])]
    ensures |s| == |p| + 3 && s[1..|s| - 2] == p
    ensures var o := Fr.Processed(Fr.Fsm(Fr.INITIAL, false, 0, Some(|s|)), s);
            o.code == Fr.Ok && o.fsm.p == 1 && o.fsm.pe == Some(|s| - 2)
  {
    hide Lrc, Fr.Processed, FrameSpec.IsFrame, FrameSpec.IsGood;
    ChecksumHolds(p, s);
    FramedIsFrame(p, s);
    GoodFrameIsOk(s, 1, |s| - 2);
  }

  /** An ETX inside ends the frame before its time. */
  lemma CutShort(p: seq<byte>, s: seq<byte>)
    requires p != [] && p[0] != ETX && ETX in p && |s| == |p| + 3 && s[0] == STX && s[1..|p| + 1] == p
    ensures var o := Fr.Processed(Fr.Fsm(Fr.INITIAL, false, 0, Some(|s|)), s);
            o.fsm.pe.Some? && o.fsm.pe.value < |s| - 2
  {
    hide Lrc, Fr.Processed;
    var e := IndexOf(p, ETX, 0);
    assert s[1..|p| + 1][e] == s[e + 1] && s[1] == p[0];
    forall k | 1 <= k < e + 1 ensures s[k] != ETX {
      assert s[k] == s[1..|p| + 1][k - 1];
    }
    assert FrameSpec.IsFrame(s, 0, 1, e + 1);
    assert s[..|s|] == s;
    FrameSpec.FreshResult(Fr.Fsm(Fr.INITIAL, false, 0, Some(|s|)), s);
  }

  /** The frame machine cuts out of a written message, of any type and with any content, exactly what the
      reader is to get, if and only if no text holds an ETX. */
  lemma WrittenIsFrame(m: Msg)
    ensures var s := Full(m);
            && |s| > 3 && s[1..|s| - 2] == Payload(m)
            && var o := Fr.Processed(Fr.Fsm(Fr.INITIAL, false, 0, Some(|s|)), s);
               && (o.fsm.p == 1 && o.fsm.pe == Some(|s| - 2) <==> EtxFree(m.body))
               && (EtxFree(m.body) ==> o.code == Fr.Ok)
  {
    hide Payload, Lrc, Full, Fr.Processed, EtxFree;
    var s, p := Full(m), Payload(m);
    FullIsFramed(m);
    PayloadEtx(m);
    ChecksumHolds(p, s);
    if EtxFree(m.body) {
      FramedIsOk(p, s);
    } else {
      CutShort(p, s);
    }
  }

  // ----- many messages on one line

  /** Messages with bytes between them that are no messages. */
  function Sent(ms: seq<Msg>, junk: seq<seq<byte>>, tail: seq<byte>): seq<byte>
    requires |ms| == |junk|
  {
    if ms == [] then tail else junk[0] + Full(ms[0]) + Sent(ms[1..], junk[1..], tail)
  }

  function Pieces(ms: seq<Msg>, junk: seq<seq<byte>>): (us: seq<Frames.Piece>)
    requires |ms| == |junk|
    ensures |us| == |ms|
    ensures forall k | 0 <= k < |us| :: us[k] == Frames.Piece(junk[k], Payload(ms[k]), Lrc(Payload(ms[k]) + [ETX]))
  {
    if ms == [] then []
    else [Frames.Piece(junk[0], Payload(ms[0]), Lrc(Payload(ms[0]) + [ETX]))] + Pieces(ms[1..], junk[1..])
  }

  lemma {:induction false} SentIsStream(ms: seq<Msg>, junk: seq<seq<byte>>, tail: seq<byte>)
    requires |ms| == |junk|
    ensures Sent(ms, junk, tail) == Frames.Stream(Pieces(ms, junk), tail)
  {
    hide Full, Payload, Lrc;
    if ms != [] {
      FullIsFramed(ms[0]);
      SentIsStream(ms[1..], junk[1..], tail);
      assert Pieces(ms, junk)[1..] == Pieces(ms[1..], junk[1..]);
    }
  }

  /** The frames of a line are its messages, in order. */
  lemma LineIsCut(ms: seq<Msg>, junk: seq<seq<byte>>, tail: seq<byte>, k: nat)
    requires |ms| == |junk| && k < |ms|
    requires forall i | 0 <= i < |ms| :: STX !in junk[i] && EtxFree(ms[i].body)
    ensures var s := Sent(ms, junk, tail);
            var fs := Frames.All(s, 0);
            && |fs| >= |ms| && fs[k].good && fs[k].start <= fs[k].end <= |s|
            && s[fs[k].start..fs[k].end] == Payload(ms[k])
  {
    hide Full, Payload, Lrc, Frames.Stream, Frames.Extents, Frames.All, EtxFree, Sent;
    var us := Pieces(ms, junk);
    SentIsStream(ms, junk, tail);
    forall u | u in us ensures Frames.IsPiece(u) {
      var i :| 0 <= i < |us| && us[i] == u;
      PayloadEtx(ms[i]);
    }
    Frames.StreamRecovered(us, tail);
    Frames.ExtentsCut(us, tail, [], k);
    assert [] + Frames.Stream(us, tail) == Frames.Stream(us, tail);
  }

  /** Whatever is written, the receiving loop finds it and the reader restores it: all messages, in order.
      Only the k-th message has to be one that can be restored. */
  lemma Conversation(ms: seq<Msg>, junk: seq<seq<byte>>, tail: seq<byte>, k: nat)
    requires |ms| == |junk| && k < |ms| && Readable(ms[k])
    requires forall i | 0 <= i < |ms| :: STX !in junk[i] && EtxFree(ms[i].body)
    ensures var s := Sent(ms, junk, tail);
            var fs, b := Frames.All(s, 0), ms[k].body;
            && |fs| >= |ms| && fs[k].good && fs[k].start <= fs[k].end <= |s|
            && (Parse(s[fs[k].start..fs[k].end], 0) == Accepted(ms[k], []) <==> Filled(b) && Plain(b) && Restorable(b))
  {
    hide Payload, Frames.All, EtxFree, Parse, Filled, Plain, Restorable, Sent;
    LineIsCut(ms, junk, tail, k);
    RoundTrip(ms[k], 0);
  }

  /** The same line cut into reads anywhere. Of each message that is still acknowledged, `parse_message` is handed
      what stands in the read of its ETX; the message comes back if that is all of it. */
  lemma ConversationInReads(ms: seq<Msg>, junk: seq<seq<byte>>, tail: seq<byte>, chunks: seq<seq<byte>>, k: nat)
    requires |ms| == |junk| && k < |ms| && Readable(ms[k]) && Wire.Flatten(chunks) == Sent(ms, junk, tail)
    requires forall i | 0 <= i < |ms| :: STX !in junk[i] && EtxFree(ms[i].body)
    ensures var fs, b, p := Frames.All(Sent(ms, junk, tail), 0), ms[k].body, Payload(ms[k]);
            var hs := Chopped.AllHanded(MainLoop.FRESH, chunks);
            && |hs| == Chopped.Reached(chunks, fs) && |fs| >= |ms|
            && var here := Places.Offset(chunks, fs[k].end);
               k < |hs| ==>
                 && hs[k] == Chopped.Handed(if here < |p| then p[|p| - here..] else p, true)
                 && (here >= |p| ==>
                       (Parse(hs[k].payload, 0) == Accepted(ms[k], []) <==> Filled(b) && Plain(b) && Restorable(b)))
  {
    hide Full, Payload, Lrc, Frames.Stream, Frames.Extents, Frames.All, EtxFree, Parse, Filled, Plain, Restorable,
         Sent, Wire.Flatten, Chopped.AllHanded, Chopped.Reached, Places.Offset;
    var s := Sent(ms, junk, tail);
    var fs := Frames.All(s, 0);
    Chopped.ReadsExactly(chunks);
    LineIsCut(ms, junk, tail, k);
    RoundTrip(ms[k], 0);
    if k < Chopped.Reached(chunks, fs) {
      SuffixOf(s, fs[k].start, fs[k].end, Places.Offset(chunks, fs[k].end));
    }
  }

  lemma SuffixOf(s: seq<byte>, start: nat, end: nat, here: nat)
    requires start <= end <= |s| && here <= end
    ensures var p := s[start..end]; s[if start < end - here then end - here else start..end]
                                    == if here < |p| then p[|p| - here..] else p
  {
  }
}
