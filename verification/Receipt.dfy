/** S2 is written without its transaction identifier; what its reader makes of that. */
module Receipt {
  import opened Bytes
  import opened Numerals
  import opened Message
  import opened Cutting
  import opened FieldMachine
  import opened Bodies
  import opened Rows
  import opened Fields
  import opened Conditions
  import opened Parser
  import opened Codec
  import H = Header
  import A = Attributes

  /** What is written: eight values, where the reader knows nine fields. */
  function Written8(s: S2): seq<Value> {
    [Num(s.error), Hex(s.cardToken), Str(s.mid), Str(s.tid),
     Str(s.trxAmount), Str(s.cashback), Str(s.paymentMethod), Str(s.msg)]
  }

  /** No text holds a separator. */
  predicate WholeReceipt(s: S2) {
    && IsWhole(s.mid) && IsWhole(s.tid) && IsWhole(s.trxAmount) && IsWhole(s.cashback)
    && IsWhole(s.paymentMethod) && IsWhole(s.msg)
  }

  /** What the reader gets through: its field for the cashback is the one the payment method is written in. */
  predicate PlainReceipt(s: S2) {
    && IsPlain(s.mid) && IsPlain(s.tid) && IsPlain(s.trxAmount) && IsDigits(s.cashback)
    && IsDigits(s.paymentMethod) && IsPlain(s.msg)
  }

  lemma {:induction false} JoinedIsLines(g: seq<Rule>, ts: seq<seq<byte>>)
    requires |g| == |ts| && forall r | r in g :: r.sep == FS
    ensures Joined(g, ts) == Lines(FS, ts)
  {
    if g != [] {
      assert g[0] in g && forall r | r in g[1..] :: r in g;
      JoinedIsLines(g[1..], ts[1..]);
    }
  }

  // ----- what is written

  lemma ReceiptIsRow(s: S2)
    ensures Flat(BodyParts(BodyS2(s))) == Joined(ReceiptRules()[..8], Texts(Written8(s)))
  {
    hide Flat, Joined, Texts, Lays;
    var g, vs := ReceiptRules()[..8], Written8(s);
    var p := F(vs[0]) + F(vs[1]) + F(vs[2]) + F(vs[3]);
    Lays4(g[..4], vs[..4]);
    p := LaysNext(p, g, vs, 4);
    p := LaysNext(p, g, vs, 5);
    p := LaysNext(p, g, vs, 6);
    p := LaysNext(p, g, vs, 7);
    assert g[..8] == g && vs[..8] == vs;
    LaysMeans(p, g, vs);
  }

  lemma LaysNext(ps: seq<Part>, g: seq<Rule>, vs: seq<Value>, k: nat) returns (ps': seq<Part>)
    requires k < |g| == |vs| && Lays(ps, g[..k], vs[..k]) && g[k].sep == FS && !g[k].store.Skip?
    ensures ps' == ps + F(vs[k]) && Lays(ps', g[..k + 1], vs[..k + 1])
  {
    hide Lays;
    ps' := ps + F(vs[k]);
    LaysOne(g[k], vs[k]);
    LaysConcat(ps, g[..k], vs[..k], F(vs[k]), [g[k]], [vs[k]]);
    assert g[..k] + [g[k]] == g[..k + 1] && vs[..k] + [vs[k]] == vs[..k + 1];
  }

  lemma LaysMeans(ps: seq<Part>, g: seq<Rule>, vs: seq<Value>)
    requires Lays(ps, g, vs)
    ensures |g| == |vs| && Flat(ps) == Joined(g, Texts(vs))
  {
  }

  lemma RuleFacts()
    ensures |ReceiptRules()| == 9 && Separated(ReceiptRules())
    ensures forall r | r in ReceiptRules() :: Proper(r) && r.sep == FS && r.min == 0 && r.mark && !InClass(r.cls, FS)
    ensures forall r | r in ReceiptRules() :: !r.optional && !r.store.Skip?
  {
  }

  /** The written texts that their fields may hold. */
  lemma WrittenIsClean(s: S2)
    ensures (forall k | 0 <= k < 8 :: Clean(ReceiptRules()[k], Texts(Written8(s))[k])) <==> PlainReceipt(s)
  {
    hide HexBytes, PrintDec, Text, Clean, IsPlain, IsDigits, AnyRule, AmountRule, NumberRule, HexRule;
    NumbersAreClean(s);
    PlainIsClean(s.mid, 20);
    PlainIsClean(s.tid, 20);
    PlainIsClean(s.trxAmount, 20);
    PlainIsClean(s.cashback, 12);
    PlainIsClean(s.paymentMethod, 12);
    PlainIsClean(s.msg, 40);
    var g, ts := ReceiptRules(), Texts(Written8(s));
    assert g[0] == NumberRule(LONG) && g[1] == HexRule(32) && g[2] == g[3] == g[4] == AnyRule(20, FS);
    assert g[5] == g[6] == AmountRule(0) && g[7] == AnyRule(40, FS);
    assert ts[0] == PrintDec(s.error % WORD) && ts[1] == HexBytes(s.cardToken) && ts[2] == Text(s.mid);
    assert ts[3] == Text(s.tid) && ts[4] == Text(s.trxAmount) && ts[5] == Text(s.cashback);
    assert ts[6] == Text(s.paymentMethod) && ts[7] == Text(s.msg);
  }

  lemma NumbersAreClean(s: S2)
    ensures Clean(NumberRule(LONG), PrintDec(s.error % WORD)) && Clean(HexRule(32), HexBytes(s.cardToken))
  {
    hide PrintDec, HexBytes;
    DecRoundTrip(s.error % WORD);
    BytesRoundTrip(s.cardToken);
  }

  lemma PlainIsClean(a: seq<byte>, width: nat)
    ensures Clean(AnyRule(width, FS), Text(a)) <==> IsPlain(a)
    ensures Clean(AmountRule(0), Text(a)) <==> IsDigits(a)
  {
  }

  // ----- what is read

  /** What the reader takes for fields: the texts that are written, cut again at every FS they hold. */
  function Pieces(s: S2): (ps: seq<seq<byte>>)
    ensures |ps| >= 8
  {
    EightWritten(s);
    CutAll(FS, Texts(Written8(s)))
  }

  lemma EightWritten(s: S2)
    ensures |Written8(s)| == 8
  {
  }

  /** The pieces are no more than the fields that are read, and each field can hold its piece. */
  predicate PlainPieces(s: S2) {
    |Pieces(s)| <= 9 && forall k | 0 <= k < |Pieces(s)| :: Clean(ReceiptRules()[k], Pieces(s)[k])
  }

  /** If no text holds a separator, the pieces are the texts. */
  lemma WholePieces(s: S2)
    requires WholeReceipt(s)
    ensures Pieces(s) == Texts(Written8(s)) && (PlainPieces(s) <==> PlainReceipt(s))
  {
    hide CutAll, Text, HexBytes, PrintDec, Clean, PlainReceipt;
    var ts := Texts(Written8(s));
    EightWritten(s);
    RuleFacts();
    ShownTexts(s);
    NumbersAreFsFree(s);
    assert FS !in Text(s.mid) && FS !in Text(s.tid) && FS !in Text(s.trxAmount) && FS !in Text(s.cashback);
    assert FS !in Text(s.paymentMethod) && FS !in Text(s.msg);
    assert AreFree(FS, ts);
    CutAllLines(FS, ts);
    WrittenIsClean(s);
  }

  lemma NumbersAreFsFree(s: S2)
    ensures var ts := Texts(Written8(s));
            && ts[0] == PrintDec(s.error % WORD) && ts[1] == HexBytes(s.cardToken)
            && ts[0] != [] && FS !in ts[0] && FS !in ts[1]
  {
    hide PrintDec, HexBytes, Text;
    DecRoundTrip(s.error % WORD);
    BytesRoundTrip(s.cardToken);
  }

  /** The first two pieces are the numbers. */
  lemma PiecesBegin(s: S2)
    ensures Pieces(s)[0] == PrintDec(s.error % WORD) && Pieces(s)[1] == HexBytes(s.cardToken)
    ensures Pieces(s)[0] != [] && AreFree(FS, Pieces(s)) && Lines(FS, Pieces(s)) == Lines(FS, Texts(Written8(s)))
  {
    hide PrintDec, HexBytes, Text, Cut;
    var ts := Texts(Written8(s));
    EightWritten(s);
    NumbersAreFsFree(s);
    CutLines(FS, ts[0]);
    CutLines(FS, ts[1]);
    CutAllLines(FS, ts);
    assert CutAll(FS, ts) == Cut(FS, ts[0]) + CutAll(FS, ts[1..]) && ts[1..][0] == ts[1];
    assert CutAll(FS, ts[1..]) == Cut(FS, ts[1]) + CutAll(FS, ts[1..][1..]);
  }

  /** The machine gets through a written S2 exactly if its pieces are plain, and has captured them. */
  lemma ReceiptRead(s: S2, str: seq<byte>, p: nat) returns (h: Halt)
    requires p <= |str| && str[p..] == Flat(BodyParts(BodyS2(s)))
    ensures h == Run(ReceiptRules(), START, str, p)
    ensures if PlainPieces(s)
            then IsFinal(h, 5) && h.p == |str| && h.cf.out == Captures(ReceiptRules(), Pieces(s), |Pieces(s)|)
            else !IsFinal(h, 5)
  {
    hide Run, Flat, BodyParts, Joined, Captures, Clean, ReceiptRules, Pieces, Texts, Written8, Lines;
    var g, ps := ReceiptRules(), Pieces(s);
    h := Run(g, START, str, p);
    RuleFacts();
    PiecesBegin(s);
    BytesAreLines(s);
    if PlainPieces(s) {
      assert forall r | r in g[..|ps|] :: r in g;
      JoinedIsLines(g[..|ps|], ps);
      forall k | 0 <= k < |ps| ensures IsRead(g[k], ps[k]) {
        assert g[k] in g;
      }
      var h' := RowRead(g, ps, str, p);
    } else if IsFinal(h, 5) {
      OnlyPieces(s, h, str, p);
    }
  }

  lemma BytesAreLines(s: S2)
    ensures Flat(BodyParts(BodyS2(s))) == Lines(FS, Texts(Written8(s)))
  {
    hide Flat, BodyParts, Joined, Texts, Written8, Lines, ReceiptRules;
    EightWritten(s);
    RuleFacts();
    ReceiptIsRow(s);
    assert forall r | r in ReceiptRules()[..8] :: r in ReceiptRules();
    JoinedIsLines(ReceiptRules()[..8], Texts(Written8(s)));
  }

  /** What gets through has been read as the pieces. */
  lemma OnlyPieces(s: S2, h: Halt, str: seq<byte>, p: nat)
    requires p <= |str| && str[p..] == Lines(FS, Pieces(s)) && AreFree(FS, Pieces(s))
    requires h == Run(ReceiptRules(), START, str, p) && !h.failed && h.cf.count == 0
    ensures PlainPieces(s)
  {
    hide Run, Joined, Clean, ReceiptRules, Pieces, Lines;
    var g, n := ReceiptRules(), h.cf.rule;
    RuleFacts();
    OutWithinRow(g, START, str, p);
    AcceptsRows(g, str, p, n);
    var us :| |us| == n && IsRow(g[..n], us) && str[p..] == Joined(g[..n], us);
    assert forall r | r in g[..n] :: r in g;
    JoinedIsLines(g[..n], us);
    forall k | 0 <= k < n ensures FS !in us[k] && Clean(g[k], us[k]) {
      assert g[..n][k] == g[k] && g[k] in g;
      CleanIsFsFree(g[k], us[k]);
    }
    LinesAreCut(FS, us, Pieces(s));
  }

  lemma CleanIsFsFree(r: Rule, t: seq<byte>)
    requires Clean(r, t) && !InClass(r.cls, FS)
    ensures FS !in t
  {
  }

  // ----- nothing is undefined

  /** Once the pointer is set it stays so, and what was captured stays. */
  lemma {:induction false} StaysSet(g: seq<Rule>, cf: Conf, s: seq<byte>, p: nat)
    requires p <= |s| && Sane(cf, p) && cf.mark.Some? && Wild !in cf.out
    ensures var h := Run(g, cf, s, p); cf.out <= h.cf.out && Wild !in h.cf.out
    decreases |s| - p
  {
    hide InClass;
    if p < |s| && Step(g, cf, s, p).Some? {
      StaysSet(g, Step(g, cf, s, p).value, s, p + 1);
    }
  }

  lemma TwoCaptured(s: S2)
    ensures Captures(ReceiptRules(), Texts(Written8(s)), 2)
         == [Taken(PrintDec(s.error % WORD)), if s.cardToken == [] then Stale(PrintDec(s.error % WORD) + [FS])
                                              else Taken(HexBytes(s.cardToken))]
    ensures Since(ReceiptRules(), Texts(Written8(s)), 2).Some?
  {
    hide PrintDec, HexBytes, Text;
    EightWritten(s);
    NumbersAreFsFree(s);
    BytesRoundTrip(s.cardToken);
    SinceFirst(ReceiptRules(), Texts(Written8(s)), 2);
    var ts := Texts(Written8(s));
    assert Since(ReceiptRules(), ts, 1) == Some(ts[0] + [FS]);
  }

  lemma ReceiptIsSafe(s: S2, str: seq<byte>, p: nat, h: Halt)
    requires |s.cardToken| == 32 && p <= |str| && str[p..] == Flat(BodyParts(BodyS2(s)))
    requires h == Run(ReceiptRules(), START, str, p)
    ensures |h.cf.out| <= 9 && IsSafe(FROB_S2, ReceiptRules(), h.cf.out)
  {
    hide Run, Flat, BodyParts, Joined, Captures, Clean, Texts, Written8, Lines, Unhexed, HexBytes, PrintDec, Since;
    var g, ts := ReceiptRules(), Texts(Written8(s));
    EightWritten(s);
    ReceiptIsRow(s);
    NumbersAreClean(s);
    NumbersAreFsFree(s);
    TwoCaptured(s);
    BytesRoundTrip(s.cardToken);
    assert IsRead(g[0], ts[0]) && IsRead(g[1], ts[1]);
    var cf, p' := RowReaches(g, ts, str, p, 2);
    StaysSet(g, cf, str, p');
    OutWithinRow(g, START, str, p);
    var out := h.cf.out;
    assert out[1] == cf.out[1];
    forall k | 0 <= k < |out| ensures out[k] != Wild {
      assert out[k] in out;
    }
  }

  // ----- what comes out

  /** The S2 that is read: behind the terminal every text stands one field off, and where one is empty,
      stands what `c` still shows of the fields before it. */
  function Shifted(s: S2): S2
    requires |Pieces(s)| <= 9
  {
    S2Of(ValuesRead(ReceiptRules(), Captures(ReceiptRules(), Pieces(s), |Pieces(s)|)))
  }

  predicate NothingEmpty(s: S2) {
    && !IsEmpty(s.mid) && !IsEmpty(s.tid) && !IsEmpty(s.trxAmount) && !IsEmpty(s.cashback)
    && !IsEmpty(s.paymentMethod) && !IsEmpty(s.msg)
  }

  /** The text that the field of a text shows. */
  function Shown(s: S2, k: nat): seq<byte>
    requires 2 <= k < |Pieces(s)| <= 9
  {
    Seen(CaptureOf(ReceiptRules(), Pieces(s), k))
  }

  lemma NumbersStay(s: S2)
    requires Sized(BodyS2(s)) && |Pieces(s)| <= 9
    ensures Stores(Strtol(LONG), CaptureOf(ReceiptRules(), Pieces(s), 0)) == Num(s.error % WORD)
    ensures Stores(UnHex(32), CaptureOf(ReceiptRules(), Pieces(s), 1)) == Hex(s.cardToken)
  {
    hide PrintDec, HexBytes, Unhexed, StrTol, Text, Since, Pieces;
    PiecesBegin(s);
    DecRoundTrip(s.error % WORD);
    StrTolOfPrinted(s.error % WORD);
    BytesRoundTrip(s.cardToken);
    assert Stored(s.cardToken, 32) == s.cardToken;
  }

  lemma FieldsShifted(s: S2)
    requires Sized(BodyS2(s)) && |Pieces(s)| <= 9
    ensures Shifted(s) == S2(s.error % WORD, s.cardToken, Stored(Shown(s, 2), 20), Stored(Shown(s, 3), 20),
                             Stored(Shown(s, 4), 20), Stored(Shown(s, 5), 12), Stored(Shown(s, 6), 12),
                             Stored(Shown(s, 7), 40), Stored(if |Pieces(s)| == 9 then Shown(s, 8) else [], 80))
  {
    hide CaptureOf, StrTol, Unhexed, Stored, Pieces;
    NumbersStay(s);
  }

  /** What a stale pointer shows begins with a character of an earlier field. */
  lemma {:induction false} SinceBegins(g: seq<Rule>, ts: seq<seq<byte>>, k: nat)
    requires k <= |ts| <= |g| && forall j | 0 <= j < k :: FS !in ts[j]
    ensures var x := Since(g, ts, k); x.Some? ==> x.value != [] && x.value[0] != FS
    decreases k
  {
    if k > 0 {
      SinceBegins(g, ts, k - 1);
      if ts[k - 1] != [] {
        assert ts[k - 1][0] in ts[k - 1];
      }
    }
  }

  /** What is shown is the piece; or, when that is empty, begins with a character, and is the piece before with
      its FS if that is not empty. */
  ghost predicate IsShown(s: S2, k: nat, t: seq<byte>)
    requires 2 <= k < |Pieces(s)| <= 9
  {
    var x := Shown(s, k);
    && x != [] && x[0] != 0 && x[0] != FS
    && (if t != [] then x == t else Pieces(s)[k - 1] != [] ==> x == Pieces(s)[k - 1] + [FS])
  }

  lemma ShownMeans(s: S2, k: nat)
    requires PlainPieces(s) && 2 <= k < |Pieces(s)|
    ensures IsShown(s, k, Pieces(s)[k]) && FS !in Pieces(s)[k] && 0 !in Pieces(s)[k]
  {
    hide HexBytes, PrintDec, Text, Clean, Pieces, ReceiptRules;
    var g, ps := ReceiptRules(), Pieces(s);
    RuleFacts();
    PiecesBegin(s);
    assert g[0] in g && g[k] in g && g[k - 1] in g;
    SinceFirst(g, ps, k);
    SinceMeans(g, ps, k);
    SinceBegins(g, ps, k);
    assert ps[k - 1] != [] ==> Since(g, ps, k) == Some(ps[k - 1] + [g[k - 1].sep]);
    CleanHasNoNul(g[k], ps[k]);
  }

  lemma CleanHasNoNul(r: Rule, t: seq<byte>)
    requires Clean(r, t)
    ensures 0 !in t && (t != [] ==> t[0] in t)
  {
    forall b | b in t ensures b != 0 {
      NeverNul(r.cls, b);
    }
  }

  /** The texts that are written. */
  lemma ShownTexts(s: S2)
    ensures Texts(Written8(s))[2] == Text(s.mid) && Texts(Written8(s))[3] == Text(s.tid)
    ensures Texts(Written8(s))[4] == Text(s.trxAmount) && Texts(Written8(s))[5] == Text(s.cashback)
    ensures Texts(Written8(s))[6] == Text(s.paymentMethod) && Texts(Written8(s))[7] == Text(s.msg)
  {
    hide Text, HexBytes, PrintDec;
  }

  // ----- what comes back, when no text holds an FS

  /** The only S2 that the shift does not change. */
  predicate SurvivesShift(s: S2) {
    && s.error < WORD && IsName(s.mid) && IsName(s.tid)
    && |Text(s.paymentMethod)| == 40 && |s.paymentMethod| == 40
    && s.cashback == s.paymentMethod[..12] && s.trxAmount == s.cashback && s.trxId == Stored(s.trxAmount, 20)
    && s.msg == Stored([], 80)
  }

  lemma NameKept(a: seq<byte>, shown: seq<byte>)
    requires |a| > 0 && if Text(a) != [] then shown == Text(a) else shown != [] && shown[0] != 0
    ensures Stored(shown, |a|) == a <==> IsName(a)
  {
    TextRoundTrip(a);
    if Text(a) == [] {
      assert Stored(shown, |a|)[0] == shown[0] != 0;
    }
  }

  lemma MethodKept(a: seq<byte>, shown: seq<byte>)
    requires |a| == 40 && (if Text(a) != [] then shown == Text(a) + [FS] else shown != [] && shown[0] != 0)
    ensures Stored(shown, 40) == a <==> |Text(a)| == 40
  {
    var n := |Text(a)|;
    if n == 0 {
      assert Stored(shown, 40)[0] == shown[0] != 0;
    } else if n < 40 {
      assert Stored(shown, 40)[n] == FS != a[n];
    } else {
      assert Text(a) == a;
    }
  }

  lemma FullDigits(a: seq<byte>, n: nat)
    requires n <= |a| && |Text(a)| == |a|
    ensures Text(a[..n]) == a[..n] && Stored(a, n) == a[..n]
  {
    assert Text(a) == a;
    assert forall i | 0 <= i < n :: a[..n][i] == a[i] && a[i] in a;
  }

  lemma EmptyText(n: nat)
    ensures Text(Stored([], n)) == []
  {
  }

  lemma ShiftFixes(s: S2)
    requires Sized(BodyS2(s)) && PlainPieces(s) && Pieces(s) == Texts(Written8(s))
    ensures Shifted(s) == s <==> SurvivesShift(s)
  {
    hide Text, IsPadded, IsName, Stored, Written8, PlainPieces, Shown, Shifted, Pieces, Texts;
    EightWritten(s);
    FieldsShifted(s);
    ShownTexts(s);
    forall k | 2 <= k < 8 ensures IsShown(s, k, Pieces(s)[k]) {
      ShownMeans(s, k);
    }
    NameKept(s.mid, Shown(s, 2));
    NameKept(s.tid, Shown(s, 3));
    if s.msg == Stored([], 80) {
      EmptyText(80);
      MethodKept(s.paymentMethod, Shown(s, 7));
      if |Text(s.paymentMethod)| == 40 {
        FullDigits(s.paymentMethod, 12);
        FullDigits(s.paymentMethod[..12], 12);
        if s.cashback == s.paymentMethod[..12] && s.trxAmount == Stored(s.cashback, 12) {
          assert s.cashback[..12] == s.cashback;
        }
      }
    }
  }

  lemma NothingStale(s: S2)
    requires Sized(BodyS2(s)) && PlainReceipt(s) && NothingEmpty(s)
    ensures |Pieces(s)| == 8
    ensures Shifted(s) == S2(s.error % WORD, s.cardToken, Stored(Text(s.mid), 20), Stored(Text(s.tid), 20),
                             Stored(Text(s.trxAmount), 20), Stored(Text(s.cashback), 12),
                             Stored(Text(s.paymentMethod), 12), Stored(Text(s.msg), 40), Stored([], 80))
  {
    hide Text, Stored, Written8, PlainReceipt, PlainPieces, Shown, Shifted, Pieces, Texts;
    PlainReceiptIsWhole(s);
    EightWritten(s);
    WholePieces(s);
    FieldsShifted(s);
    ShownTexts(s);
    forall k | 2 <= k < 8 ensures IsShown(s, k, Pieces(s)[k]) {
      ShownMeans(s, k);
    }
  }

  lemma PlainReceiptIsWhole(s: S2)
    requires PlainReceipt(s)
    ensures WholeReceipt(s)
  {
  }

  // ----- what comes back, when one text holds an FS

  /** Arrays that are written as texts, by the place of their text in the row; and what the field there is read into. */
  function Sent(s: S2, k: nat): seq<byte>
    requires 2 <= k < 8
  {
    [s.mid, s.tid, s.trxAmount, s.cashback, s.paymentMethod, s.msg][k - 2]
  }

  function Target(s: S2, k: nat): seq<byte>
    requires 2 <= k < 9
  {
    [s.mid, s.tid, s.trxId, s.trxAmount, s.cashback, s.paymentMethod, s.msg][k - 2]
  }

  /** The text at j ends with an FS and takes up the place of the missing field: the fields behind are right again,
      and those before it, from the amount on, are copies of one another. */
  predicate EndsInFs(s: S2, j: nat)
    requires 4 <= j < 8
  {
    var t := Text(Sent(s, j));
    && |t| > 1 && t[|t| - 1] == FS && IsPadded(Sent(s, j))
    && Target(s, j) == Stored(t[..|t| - 1], |Target(s, j)|)
    && (forall k | 4 <= k < j :: !IsEmpty(Sent(s, k)) && Target(s, k) == Stored(Text(Sent(s, k)), |Target(s, k)|))
    && (forall k | j < k < 8 :: IsName(Sent(s, k)))
  }

  predicate SurvivesByFs(s: S2) {
    s.error < WORD && IsName(s.mid) && IsName(s.tid) && exists j :: 4 <= j < 8 && EndsInFs(s, j)
  }

  lemma TargetsKept(s: S2)
    requires Sized(BodyS2(s)) && |Pieces(s)| == 9
    ensures Shifted(s) == s <==>
            s.error < WORD && forall k | 2 <= k < 9 :: Stored(Shown(s, k), |Target(s, k)|) == Target(s, k)
  {
    hide Shown, Stored, Pieces, Shifted;
    FieldsShifted(s);
    if s.error < WORD && forall k | 2 <= k < 9 :: Stored(Shown(s, k), |Target(s, k)|) == Target(s, k) {
      assert Target(s, 2) == s.mid && Target(s, 3) == s.tid && Target(s, 4) == s.trxId && Target(s, 5) == s.trxAmount;
      assert Target(s, 6) == s.cashback && Target(s, 7) == s.paymentMethod && Target(s, 8) == s.msg;
    }
  }

  /** An array with an FS in its text is not restored from bytes that begin otherwise, or hold none. */
  lemma CannotShow(a: seq<byte>, x: seq<byte>, y: seq<byte>, shown: seq<byte>)
    requires Text(a) == x + [FS] + y && shown != [] && shown[0] != FS
    requires FS in shown ==> x == []
    ensures Stored(shown, |a|) != a
  {
    assert Text(a)[|x|] == a[|x|] == FS;
    if |x| < |shown| && x != [] {
      assert shown[|x|] in shown;
    }
  }

  /** The row of pieces: the texts before j, the two pieces of that at j, the texts behind it. */
  ghost predicate IsCutAt(s: S2, j: nat, x: seq<byte>, y: seq<byte>) {
    && PlainPieces(s) && |Pieces(s)| == 9 && 2 <= j < 8
    && Text(Sent(s, j)) == x + [FS] + y && FS !in x && FS !in y
    && Pieces(s)[j] == x && Pieces(s)[j + 1] == y
    && (forall k | 2 <= k < j :: Pieces(s)[k] == Text(Sent(s, k)))
    && (forall k | j < k < 8 :: Pieces(s)[k + 1] == Text(Sent(s, k)))
    && (forall k | 2 <= k < 8 && k != j :: FS !in Text(Sent(s, k)))
  }

  lemma TextsSent(s: S2)
    ensures forall k | 2 <= k < 8 :: Texts(Written8(s))[k] == Text(Sent(s, k))
  {
    hide Text, HexBytes, PrintDec;
    ShownTexts(s);
  }

  lemma PiecesAt(ts: seq<seq<byte>>, ps: seq<seq<byte>>, j: nat, x: seq<byte>, y: seq<byte>)
    requires j < |ts| && ps == ts[..j] + [x, y] + ts[j + 1..]
    ensures |ps| == |ts| + 1 && ps[j] == x && ps[j + 1] == y
    ensures forall k | 0 <= k < j :: ps[k] == ts[k]
    ensures forall k | j < k < |ts| :: ps[k + 1] == ts[k]
  {
  }

  lemma CutSomewhere(s: S2) returns (j: nat, x: seq<byte>, y: seq<byte>)
    requires PlainPieces(s) && |Pieces(s)| == 9
    ensures IsCutAt(s, j, x, y)
  {
    hide Text, CutAll, PrintDec, HexBytes, Clean, Written8, Sent, PlainPieces, Texts;
    var ts := Texts(Written8(s));
    EightWritten(s);
    j, x, y := OneCut(FS, ts);
    NumbersAreFsFree(s);
    TextsSent(s);
    PiecesAt(ts, Pieces(s), j, x, y);
    assert ts[j][|x|] == FS && ts[j][|x|] in ts[j];
  }

  lemma EndOf(x: seq<byte>, y: seq<byte>)
    ensures var t := x + [FS] + y;
            t[|t| - 1] in t && (y != [] ==> t[|t| - 1] == y[|y| - 1] && y[|y| - 1] in y)
  {
  }

  lemma SameFs(s: S2, j: nat, x: seq<byte>, y: seq<byte>, i: nat)
    requires IsCutAt(s, j, x, y) && 4 <= i < 8 && EndsInFs(s, i)
    ensures i == j && y == [] && x != []
  {
    hide Text, PlainPieces, Pieces;
    var t := Text(Sent(s, i));
    assert t[|t| - 1] in t;
    EndOf(x, y);
  }

  /** What each field behind the token shows. */
  lemma AllShown(s: S2, j: nat, x: seq<byte>, y: seq<byte>)
    requires IsCutAt(s, j, x, y)
    ensures forall k | 2 <= k < 9 :: Shown(s, k) != [] && Shown(s, k)[0] != 0 && Shown(s, k)[0] != FS
    ensures forall k | 2 <= k < j :: !IsEmpty(Sent(s, k)) ==> Shown(s, k) == Text(Sent(s, k))
    ensures forall k | j < k < 8 :: !IsEmpty(Sent(s, k)) ==> Shown(s, k + 1) == Text(Sent(s, k))
    ensures x != [] ==> Shown(s, j) == x
    ensures if y != [] then Shown(s, j + 1) == y else x != [] ==> Shown(s, j + 1) == x + [FS]
  {
    hide Text, PlainPieces, Pieces, Shown, Sent;
    forall k | 2 <= k < 9
      ensures Shown(s, k) != [] && Shown(s, k)[0] != 0 && Shown(s, k)[0] != FS && IsShown(s, k, Pieces(s)[k])
    {
      ShownMeans(s, k);
    }
    forall k | 2 <= k < j ensures !IsEmpty(Sent(s, k)) ==> Shown(s, k) == Text(Sent(s, k)) {
      assert IsShown(s, k, Pieces(s)[k]);
    }
    forall k | j < k < 8 ensures !IsEmpty(Sent(s, k)) ==> Shown(s, k + 1) == Text(Sent(s, k)) {
      assert IsShown(s, k + 1, Pieces(s)[k + 1]);
    }
    assert IsShown(s, j, x) && IsShown(s, j + 1, y) && Pieces(s)[j + 1 - 1] == x;
  }

  lemma SentIsTarget(s: S2)
    requires Sized(BodyS2(s))
    ensures Sent(s, 2) == Target(s, 2) == s.mid && Sent(s, 3) == Target(s, 3) == s.tid
    ensures forall k | 4 <= k < 8 :: Sent(s, k) == Target(s, k + 1)
    ensures forall k | 2 <= k < 8 :: |Sent(s, k)| > 0
    ensures forall k | 2 <= k < 9 :: |Target(s, k)| > 0
  {
    assert Sent(s, 3) == s.tid == Target(s, 3);
    assert Sent(s, 4) == Target(s, 5) && Sent(s, 5) == Target(s, 6) && Sent(s, 6) == Target(s, 7);
    assert Sent(s, 7) == Target(s, 8);
  }

  /** The field at k shows what restores its array. */
  predicate IsKept(s: S2, k: nat)
    requires 2 <= k < |Pieces(s)| == 9
  {
    Stored(Shown(s, k), |Target(s, k)|) == Target(s, k)
  }

  lemma KeptBegins(s: S2, k: nat)
    requires 2 <= k < |Pieces(s)| == 9 && IsKept(s, k) && |Target(s, k)| > 0
    requires Shown(s, k) != [] && Shown(s, k)[0] != 0
    ensures !IsEmpty(Target(s, k))
  {
    hide Pieces, Shown;
    assert Target(s, k)[0] == Shown(s, k)[0];
  }

  lemma EndKept(a: seq<byte>, x: seq<byte>)
    requires Text(a) == x + [FS]
    ensures Stored(x + [FS], |a|) == a <==> IsPadded(a)
  {
    TextRoundTrip(a);
  }

  /** If every field restores its array, the cut is at the end of a text behind the terminal. */
  lemma KeptEnds(s: S2, j: nat, x: seq<byte>, y: seq<byte>)
    requires Sized(BodyS2(s)) && IsCutAt(s, j, x, y) && forall k | 2 <= k < 9 :: IsKept(s, k)
    ensures IsName(s.mid) && IsName(s.tid) && j >= 4 && EndsInFs(s, j)
  {
    hide Text, PlainPieces, Pieces, Shown, Sent, Target, IsPadded, Stored, IsName;
    AllShown(s, j, x, y);
    SentIsTarget(s);
    forall k | 2 <= k < 9 ensures !IsEmpty(Target(s, k)) {
      KeptBegins(s, k);
    }
    assert IsKept(s, j) && IsKept(s, j + 1);
    if j < 4 {
      CannotShow(Sent(s, j), x, y, Shown(s, j));
    } else if y != [] || x == [] {
      CannotShow(Sent(s, j), x, y, Shown(s, j + 1));
    }
    KeptName(s, 2, 2);
    KeptName(s, 3, 3);
    assert x + [FS] + y == x + [FS] && (x + [FS])[..|x|] == x;
    EndKept(Sent(s, j), x);
    forall k | 4 <= k < j ensures !IsEmpty(Sent(s, k)) && Target(s, k) == Stored(Text(Sent(s, k)), |Target(s, k)|) {
      assert Sent(s, k) == Target(s, k + 1) && IsKept(s, k);
    }
    forall k | j < k < 8 ensures IsName(Sent(s, k)) {
      KeptName(s, k, k + 1);
    }
  }

  lemma KeptName(s: S2, k: nat, i: nat)
    requires 2 <= k < 8 && 2 <= i < |Pieces(s)| == 9 && Sent(s, k) == Target(s, i) && |Sent(s, k)| > 0
    requires !IsEmpty(Sent(s, k)) ==> Shown(s, i) == Text(Sent(s, k))
    requires Shown(s, i) != [] && Shown(s, i)[0] != 0
    ensures IsKept(s, i) <==> IsName(Sent(s, k))
  {
    hide Text, Pieces, Shown, Sent, Target, IsPadded, Stored, IsName;
    NameKept(Sent(s, k), Shown(s, i));
  }

  /** ... and then every field does. */
  lemma EndsKeep(s: S2, j: nat, x: seq<byte>, y: seq<byte>)
    requires Sized(BodyS2(s)) && IsCutAt(s, j, x, y) && IsName(s.mid) && IsName(s.tid)
    requires j >= 4 && EndsInFs(s, j)
    ensures forall k | 2 <= k < 9 :: IsKept(s, k)
  {
    hide Text, PlainPieces, Pieces, Shown, Sent, Target, IsPadded, Stored, IsName;
    SameFs(s, j, x, y, j);
    AllShown(s, j, x, y);
    SentIsTarget(s);
    KeptName(s, 2, 2);
    KeptName(s, 3, 3);
    assert x + [FS] + y == x + [FS] && (x + [FS])[..|x|] == x;
    EndKept(Sent(s, j), x);
    forall k | 2 <= k < 9 ensures IsKept(s, k) {
      if k > j + 1 {
        KeptName(s, k - 1, k);
      }
    }
  }

  lemma FsFixes(s: S2)
    requires Sized(BodyS2(s)) && PlainPieces(s) && |Pieces(s)| == 9
    ensures Shifted(s) == s <==> SurvivesByFs(s)
  {
    hide Text, PlainPieces, Pieces, Shown, Sent, Target, IsName, Shifted, IsCutAt, EndsInFs, Stored;
    var j, x, y := CutSomewhere(s);
    TargetsKept(s);
    CutIsInside(s, j, x, y);
    if Shifted(s) == s {
      forall k | 2 <= k < 9 ensures IsKept(s, k) {
        assert Stored(Shown(s, k), |Target(s, k)|) == Target(s, k);
      }
      KeptEnds(s, j, x, y);
    }
    if SurvivesByFs(s) {
      var i :| 4 <= i < 8 && EndsInFs(s, i);
      SameFs(s, j, x, y, i);
      EndsKeep(s, j, x, y);
      forall k | 2 <= k < 9 ensures Stored(Shown(s, k), |Target(s, k)|) == Target(s, k) {
        assert IsKept(s, k);
      }
    }
  }

  lemma CutIsInside(s: S2, j: nat, x: seq<byte>, y: seq<byte>)
    requires IsCutAt(s, j, x, y)
    ensures 2 <= j < 8
  {
  }

  // ----- all together

  /** Any S2, whatever bytes its texts hold: it is accepted exactly if the pieces are no more than the fields and each
      is such as its field can hold; so, without an FS, if the texts are printable and the payment method is a
      number. Its fields then stand in each other's places. It comes back exactly if every field behind the
      terminal shows the same forty digits, or if one of the texts ends with an FS of its own. */
  lemma ReceiptsAreShifted(m: Msg, want: int)
    requires m.body.BodyS2? && Sized(m.body) && m.token < 0x100_0000
    requires want in {0, TypeOf(m.body) as int}
    ensures var s, r := m.body.s2, Parse(Payload(m), want);
            && r == (if PlainPieces(s) then Accepted(Msg(m.token, BodyS2(Shifted(s))), []) else Rejected)
            && (r == Accepted(m, []) <==>
                PlainPieces(s) && if |Pieces(s)| == 8 then SurvivesShift(s) else SurvivesByFs(s))
            && (WholeReceipt(s) ==> |Pieces(s)| == 8 && (PlainPieces(s) <==> PlainReceipt(s)))
  {
    hide Payload, PrintHex, ReadHead, ReadBody, Flat, BodyParts, Shifted, PlainReceipt, SurvivesShift, SurvivesByFs,
         Sized, A.Run, Clean, ReceiptRules, Pieces, Texts, Written8, IsType;
    var s, str, p := m.body.s2, Payload(m), |PrintHex(m.token)| + 4;
    HeadOutcome(m, want);
    HeadBytes(m);
    ReceiptBody(s, str, p);
    NothingBehind(str);
    EightWritten(s);
    if WholeReceipt(s) {
      WholePieces(s);
    }
    if PlainPieces(s) {
      if |Pieces(s)| == 8 {
        NoneIsCut(s);
        ShiftFixes(s);
      } else {
        FsFixes(s);
      }
    }
  }

  lemma NoneIsCut(s: S2)
    requires |Pieces(s)| == 8
    ensures Pieces(s) == Texts(Written8(s))
  {
    EightWritten(s);
    NoneCut(FS, Texts(Written8(s)));
  }

  lemma ReceiptBody(s: S2, str: seq<byte>, p: nat)
    requires Sized(BodyS2(s)) && p <= |str| && str[p..] == Flat(BodyParts(BodyS2(s)))
    ensures var r := ReadBody(FROB_S2, str, p);
            && r.body.Some? && (r.code == H.Ok <==> PlainPieces(s))
            && (PlainPieces(s) ==> r.p == |str| && r.body.value == BodyS2(Shifted(s)))
  {
    hide Flat, BodyParts, Run, IsSafe, ReceiptRules, ValuesRead, S2Of, Pieces, CaptureOf, Clean;
    var h := ReceiptRead(s, str, p);
    ReceiptIsSafe(s, str, p, h);
    RuleFacts();
    assert ReadBody(FROB_S2, str, p)
        == Inner(CodeOf(FROB_S2, h), h.p, Some(BodyS2(S2Of(ValuesRead(ReceiptRules(), h.cf.out)))));
  }

  /** One that does come back, though its texts are no numbers: an FS at the end of the amount. */
  lemma ReceiptWithFs(m: Msg, a: byte, want: int)
    requires m.body.BodyS2? && Sized(m.body) && m.token < 0x100_0000 && want in {0, TypeOf(m.body) as int}
    requires var s := m.body.s2;
             && s.error < WORD && IsName(s.mid) && IsPlain(s.mid) && IsName(s.tid) && IsPlain(s.tid)
             && 0x20 <= a < 0x7F && s.trxAmount == Stored([a, FS], 12) && s.trxId == Stored([a], 20)
             && IsName(s.cashback) && IsDigits(s.cashback) && IsName(s.paymentMethod) && IsPlain(s.paymentMethod)
             && IsName(s.msg) && IsPlain(s.msg)
    ensures Parse(Payload(m), want) == Accepted(m, [])
  {
    hide Parse, Payload, Sized, Pieces, Shifted;
    var s := m.body.s2;
    EightWritten(s);
    AmountInPieces(s, a);
    FsEnds(s, a);
    ReceiptsAreShifted(m, want);
  }

  lemma CutOfTwo(a: byte)
    requires a != FS
    ensures Cut(FS, [a, FS]) == [[a], []]
  {
    assert [a, FS][1..] == [FS] && [FS][1..] == [];
    var r := Cut(FS, [FS]);
    assert r == [[]] + Cut(FS, []) == [[], []];
    assert [a] + r[0] == [a] && r[1..] == [[]];
    assert Cut(FS, [a, FS]) == [[a] + r[0]] + r[1..];
  }

  lemma TextOfTwo(a: byte, w: seq<byte>)
    requires 0 < a && |w| > 2 && w == Stored([a, FS], |w|)
    ensures Text(w) == [a, FS] && IsPadded(w)
  {
    var t := Text(w);
    assert w[0] == a && w[1] == FS && w[2] == 0;
    assert forall i | 0 <= i < |t| :: t[i] == w[i] && t[i] in t;
    assert |t| == 2;
  }

  lemma AmountInPieces(s: S2, a: byte)
    requires 0x20 <= a < 0x7F && s.trxAmount == Stored([a, FS], 12)
    requires IsPlain(s.mid) && IsPlain(s.tid) && IsDigits(s.cashback) && IsPlain(s.paymentMethod) && IsPlain(s.msg)
    ensures |Pieces(s)| == 9 && PlainPieces(s)
  {
    hide Text, PrintDec, HexBytes, Cut, Clean, Stored, AnyRule, AmountRule, NumberRule, HexRule;
    var ts, g := Texts(Written8(s)), ReceiptRules();
    EightWritten(s);
    NumbersAreClean(s);
    NumbersAreFsFree(s);
    ShownTexts(s);
    TextOfTwo(a, s.trxAmount);
    assert FS !in Text(s.mid) && FS !in Text(s.tid) && FS !in Text(s.cashback);
    assert FS !in Text(s.paymentMethod) && FS !in Text(s.msg);
    CutAllAt(FS, ts, 4);
    CutOfTwo(a);
    PlainIsClean(s.mid, 20);
    PlainIsClean(s.tid, 20);
    PlainIsClean(s.cashback, 12);
    PlainIsClean(s.paymentMethod, 40);
    PlainIsClean(s.msg, 80);
    OneIsClean(a);
    var ps := Pieces(s);
    assert ps == [ts[0], ts[1], ts[2], ts[3], [a], [], ts[5], ts[6], ts[7]];
    assert g == [NumberRule(LONG), HexRule(32), AnyRule(20, FS), AnyRule(20, FS), AnyRule(20, FS), AmountRule(0),
                 AmountRule(0), AnyRule(40, FS), AnyRule(80, FS)];
  }

  lemma OneIsClean(a: byte)
    requires 0x20 <= a < 0x7F
    ensures Clean(AnyRule(20, FS), [a]) && Clean(AmountRule(0), [])
  {
  }

  lemma FsEnds(s: S2, a: byte)
    requires s.error < WORD && IsName(s.mid) && IsName(s.tid) && IsName(s.cashback) && IsName(s.paymentMethod)
    requires IsName(s.msg) && 0 < a && s.trxAmount == Stored([a, FS], 12) && s.trxId == Stored([a], 20)
    ensures SurvivesByFs(s)
  {
    hide Text, Stored, IsName, IsPadded;
    TextOfTwo(a, s.trxAmount);
    assert Sent(s, 4) == s.trxAmount && [a, FS][..1] == [a];
    assert Sent(s, 5) == s.cashback && Sent(s, 6) == s.paymentMethod && Sent(s, 7) == s.msg;
    assert EndsInFs(s, 4);
  }
}
