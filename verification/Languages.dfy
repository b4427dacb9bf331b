/** What the reader takes, over all byte strings and not only those the writer makes. */
module Languages {
  import opened Bytes
  import opened Numerals
  import opened Message
  import opened FieldMachine
  import opened Bodies
  import opened Parser
  import opened Rows
  import opened Fields
  import opened Codec
  import H = Header
  import A = Attributes

  // ----- bodies

  /** With how many fields a body may end, by the alternatives of `main`. */
  predicate MayEnd(t: int, n: nat) {
    if t == FROB_T3 || t == FROB_K1 then n <= 1
    else if t == FROB_T5 || t == FROB_B4 then n == 1
    else if t == FROB_D5 then n == 31
    else if t == FROB_S1 then 8 <= n <= 9
    else if t == FROB_S2 then 5 <= n <= 9
    else if t == FROB_B1 then n == 4
    else if t == FROB_B2 then 5 <= n <= 7
    else if t == FROB_B3 then n == 2
    else t == FROB_K0 && 1 <= n <= 2
  }

  /** The types whose body has to be read to the end. */
  const CHECKED: set<int> :=
    {FROB_T3, FROB_K1, FROB_T5, FROB_B4, FROB_D5, FROB_S1, FROB_S2, FROB_B1, FROB_B2, FROB_B3, FROB_K0}

  /** The result if it is not. */
  function Refusal(t: int): H.Code {
    if t == FROB_T3 || t == FROB_K1 then H.BadMsg
    else if t == FROB_T5 || t == FROB_S1 then H.Perm
    else H.NotRecoverable
  }

  /** The bytes from p on are such a number of fields, and nothing else. */
  ghost predicate IsBody(t: int, g: seq<Rule>, s: seq<byte>, p: nat)
    requires p <= |s|
  {
    exists ts: seq<seq<byte>> ::
      MayEnd(t, |ts|) && |ts| <= |g| && IsRow(g[..|ts|], ts) && s[p..] == Joined(g[..|ts|], ts)
  }

  lemma RulesOf(t: int, n: nat)
    requires t in CHECKED
    ensures Grammar(t, n).Some?
    ensures var g := Grammar(t, n).value;
            && (forall r | r in g :: Proper(r))
            && (forall k | 0 <= k <= |g| :: MayEnd(t, k) <==> k >= Need(t))
            && t !in {FROB_T1, FROB_T2, FROB_T4, FROB_D4}
  {
    hide Need, MayEnd;
    GrammarIsProper(t, n);
    EndsOf(t, n);
  }

  lemma EndsOf(t: int, n: nat)
    requires t in CHECKED
    ensures Grammar(t, n).Some? && forall k | 0 <= k <= |Grammar(t, n).value| :: MayEnd(t, k) <==> k >= Need(t)
  {
  }

  lemma GrammarIsProper(t: int, n: nat)
    requires t in CHECKED
    ensures Grammar(t, n).Some? && forall r | r in Grammar(t, n).value :: Proper(r)
  {
    hide Need;
    RowsProper();
  }

  lemma RowsProper()
    ensures forall r | r in InfoRules() + WidthRules() + StyleRules() + BitmapRules() + DisplayRules() :: Proper(r)
    ensures forall r | r in KeyRules() + ArrowRules() + DeviceRules() + SaleRules() + MoneyRules() :: Proper(r)
    ensures forall r | r in ReceiptRules() :: Proper(r)
    ensures Proper(LoneRule()) && Proper(TextRule(4)) && Proper(NumberRule(LONG)) && Proper(AnyRule(100, FS))
    ensures Proper(HexRule(256)) && Proper(HexRule(3))
  {
  }

  /** Unless an action reads or writes where it must not, the body reader gives 0 exactly if the bytes are a row that
      may end there; and then it has read them all. */
  lemma BodyAccepted(t: int, s: seq<byte>, p: nat)
    requires p <= |s| && t in CHECKED
    ensures Grammar(t, |s|).Some?
    ensures var r := ReadBody(t, s, p);
            r.body.Some? ==>
              && (r.code == H.Ok <==> IsBody(t, Grammar(t, |s|).value, s, p))
              && (r.code == H.Ok ==> r.p == |s|)
              && (r.code != H.Ok ==> r.code == Refusal(t))
  {
    hide Grammar, Run, Joined, Build, ValuesRead, Need, MayEnd, IsSafe, IsRow;
    RulesOf(t, |s|);
    var g := Grammar(t, |s|).value;
    var h := Run(g, START, s, p);
    OutWithinRow(g, START, s, p);
    if IsFinal(h, Need(t)) {
      AcceptsRows(g, s, p, h.cf.rule);
    }
    if ts: seq<seq<byte>> :|
      MayEnd(t, |ts|) && |ts| <= |g| && IsRow(g[..|ts|], ts) && s[p..] == Joined(g[..|ts|], ts)
    {
      AcceptsRows(g, s, p, |ts|);
    }
  }

  /** Texts that are all there, and hexadecimal ones not longer than their array. */
  ghost predicate AreGiven(g: seq<Rule>, ts: seq<seq<byte>>)
    requires |ts| <= |g|
  {
    forall k | 0 <= k < |ts| :: ts[k] != [] && (g[k].store.UnHex? ==> |ts[k]| <= 2 * g[k].store.width)
  }

  lemma {:induction false} UnhexedMeans(s: seq<byte>, k: nat)
    requires 2 * k < |s|
    ensures k < |Unhexed(s)| == (|s| + 1) / 2
    ensures Unhexed(s)[k] == 16 * Hex2Nibble(s[2 * k]) + if 2 * k + 1 < |s| then Hex2Nibble(s[2 * k + 1]) else 0
    decreases |s|
  {
    if k > 0 {
      UnhexedMeans(s[2..], k - 1);
    } else if |s| > 2 {
      UnhexedMeans(s[2..], 0);
    }
  }

  lemma UnhexedLength(s: seq<byte>)
    ensures |Unhexed(s)| == (|s| + 1) / 2
  {
    if s != [] {
      UnhexedMeans(s, 0);
    }
  }

  /** Such a row is read into the message: each field from its own text, the fields left out are zero. */
  lemma GivenIsRead(t: int, ts: seq<seq<byte>>, s: seq<byte>, p: nat)
    requires p <= |s| && t in CHECKED && Grammar(t, |s|).Some? && MayEnd(t, |ts|)
    requires var g := Grammar(t, |s|).value;
             |ts| <= |g| && IsRow(g[..|ts|], ts) && AreGiven(g, ts) && s[p..] == Joined(g[..|ts|], ts)
    ensures var g, r := Grammar(t, |s|).value, ReadBody(t, s, p);
            && r.code == H.Ok && r.p == |s| && Grammar(t, |g|) == Some(g)
            && var vs := seq(|g|, k requires 0 <= k < |g| =>
                               Stores(g[k].store, if k < |ts| then Taken(ts[k]) else Absent));
               r.body == Some(Build(t, vs))
  {
    hide Grammar, Run, Joined, Build, Need, MayEnd, Stores, Since, Clean, LongEnough, Unhexed;
    RulesOf(t, |s|);
    GrammarLength(t, |s|);
    var g := Grammar(t, |s|).value;
    forall k | 0 <= k < |ts| ensures IsRead(g[k], ts[k]) && CaptureOf(g, ts, k) == Taken(ts[k]) {
      assert g[..|ts|][k] == g[k] && g[k] in g;
    }
    var h := RowRead(g, ts, s, p);
    forall k | 0 <= k < |ts| ensures g[k].store.UnHex? ==> |Unhexed(ts[k])| <= g[k].store.width {
      UnhexedLength(ts[k]);
    }
    var vs := seq(|g|, k requires 0 <= k < |g| => Stores(g[k].store, if k < |ts| then Taken(ts[k]) else Absent));
    assert ValuesRead(g, h.cf.out) == vs;
  }

  /** What a message holds that is accepted behind no attributes: for the types whose body has to be read to the
      end, attributes are never read. */
  lemma NoAttributesBehind(s: seq<byte>, want: int)
    requires Parse(s, want).Accepted? && TypeOf(Parse(s, want).msg.body) in CHECKED
    ensures Parse(s, want).attr == []
  {
    hide ReadHead, ReadBody, A.Run, A.IsFinal, TypeOf, IsType;
    var h := ReadHead(s, want, 0);
    BodyAccepted(h.t, s, h.p);
    NothingBehind(s);
  }

  /** T1, D4, T3 and K1 have nothing in their body, or one FS; T3 and K1 are refused with anything else. */
  lemma NothingOrFs(t: int, s: seq<byte>, p: nat)
    requires p <= |s| && t in {FROB_T1, FROB_D4, FROB_T3, FROB_K1}
    ensures var r, fs := ReadBody(t, s, p), p < |s| && s[p] == FS;
            && r.body.Some? && r.p == (if fs then p + 1 else p)
            && (r.code == H.Ok <==> t in {FROB_T1, FROB_D4} || r.p == |s|)
            && r.body.value == (if t == FROB_T1 then BodyT1 else if t == FROB_D4 then BodyD4
                                else if t == FROB_T3 then BodyT3 else BodyK1)
  {
    var g := [LoneRule()];
    var h := Run(g, START, s, p);
    if p < |s| && s[p] == FS {
      var next := Conf(1, 0, None, [Absent]);
      assert START.out + [Absent] == [Absent];
      assert h == Run(g, next, s, p + 1);
      assert h == Halt(next, p + 1, p + 1 < |s|);
    } else {
      assert h == Halt(START, p, p < |s|);
    }
  }

  /** A hexadecimal text that is longer than its array is written behind it. */
  lemma OverlongIsUndefined(t: int, ts: seq<seq<byte>>, s: seq<byte>, p: nat, k: nat)
    requires p <= |s| && t in CHECKED && Grammar(t, |s|).Some?
    requires var g := Grammar(t, |s|).value;
             && |ts| <= |g| && IsRow(g[..|ts|], ts) && s[p..] == Joined(g[..|ts|], ts)
             && k < |ts| && ts[k] != [] && g[k].store.UnHex? && |ts[k]| > 2 * g[k].store.width
    ensures ReadBody(t, s, p).body.None?
  {
    hide Grammar, Run, Joined, Build, Need, Stores, Since, Clean, LongEnough, Unhexed;
    RulesOf(t, |s|);
    var g := Grammar(t, |s|).value;
    forall i | 0 <= i < |ts| ensures IsRead(g[i], ts[i]) {
      assert g[..|ts|][i] == g[i] && g[i] in g;
    }
    var h := RowRead(g, ts, s, p);
    UnhexedLength(ts[k]);
    assert h.cf.out[k] == Taken(ts[k]);
  }

  /** If nothing stands in the first field, the pointer it would have set is read. */
  lemma EmptyIsUndefined(t: int, s: seq<byte>, p: nat)
    requires p < |s| && s[p] == FS && t in {FROB_S2, FROB_B3, FROB_B4, FROB_K0, FROB_D5}
    ensures ReadBody(t, s, p).body.None?
  {
    hide Run, Build, ValuesRead, MayEnd, Need;
    var g := Grammar(t, |s|).value;
    FirstIsMarked(t, |s|);
    var next := Conf(1, 0, None, [Wild]);
    assert START.out + [Wild] == [Wild];
    RunOnce(g, s, p, next);
    OutGrows(g, next, s, p + 1);
    OutWithinRow(g, START, s, p);
    assert Run(g, START, s, p).cf.out[0] == Wild;
  }

  lemma FirstIsMarked(t: int, n: nat)
    requires t in {FROB_S2, FROB_B3, FROB_B4, FROB_K0, FROB_D5}
    ensures Grammar(t, n).Some? && |Grammar(t, n).value| > 0
    ensures var r := Grammar(t, n).value[0];
            !InClass(r.cls, FS) && r.min == 0 && !r.optional && !r.store.Skip? && r.sep == FS
  {
  }

  lemma RunOnce(g: seq<Rule>, s: seq<byte>, p: nat, next: Conf)
    requires p < |s| && Step(g, START, s, p) == Some(next)
    ensures Sane(next, p + 1) && Run(g, START, s, p) == Run(g, next, s, p + 1)
  {
  }

  lemma {:induction false} OutGrows(g: seq<Rule>, cf: Conf, s: seq<byte>, p: nat)
    requires p <= |s| && Sane(cf, p)
    ensures cf.out <= Run(g, cf, s, p).cf.out
    decreases |s| - p
  {
    hide InClass, Capture;
    if p < |s| && Step(g, cf, s, p).Some? {
      OutGrows(g, Step(g, cf, s, p).value, s, p + 1);
    }
  }

  /** A T4 whose versions stand as the reader expects them, each with FS behind: up to twenty of them are read, more
      are written behind the array. */
  lemma VersionsAreRead(ts: seq<seq<byte>>, s: seq<byte>, p: nat)
    requires p <= |s| && |ts| <= |s| && forall t | t in ts :: t != [] && forall b | b in t :: InClass(Printable, b)
    requires s[p..] == Joined(seq(|ts|, _ => TextRule(4)), ts)
    ensures var r := ReadBody(FROB_T4, s, p);
            if |ts| > 20 then r.body.None?
            else
              && r.code == H.Ok && r.p == |s| && r.body.Some? && r.body.value.BodyT4?
              && |r.body.value.versions| == 20
              && forall k | 0 <= k < 20 :: r.body.value.versions[k] == Stored(if k < |ts| then ts[k] else [], 4)
  {
    hide Run, Joined, InClass, Since, Clean, LongEnough, Build, ValuesRead;
    var n := |ts|;
    var g := seq(|s|, _ => TextRule(4));
    assert g[..n] == seq(n, _ => TextRule(4));
    forall k | 0 <= k < n ensures IsRead(g[k], ts[k]) && CaptureOf(g, ts, k) == Taken(ts[k]) {
      assert ts[k] in ts;
      VersionIsRead(ts[k]);
    }
    var h := RowRead(g, ts, s, p);
    assert Grammar(FROB_T4, |s|) == Some(g);
    if n <= 20 {
      VersionsBuilt(g, ts, h.cf.out);
    }
  }

  lemma VersionIsRead(t: seq<byte>)
    requires t != [] && forall b | b in t :: InClass(Printable, b)
    ensures IsRead(TextRule(4), t)
  {
    RowsProper();
  }

  lemma VersionsBuilt(g: seq<Rule>, ts: seq<seq<byte>>, out: seq<Captured>)
    requires |out| == |ts| <= |g| && (forall k | 0 <= k < |ts| :: out[k] == Taken(ts[k]))
    requires forall k | 0 <= k < |g| :: g[k] == TextRule(4)
    ensures Grammar(FROB_T4, |g|) == Some(g)
    ensures var b := Build(FROB_T4, ValuesRead(g, out));
            b.BodyT4? && |b.versions| == 20
            && forall k | 0 <= k < 20 :: b.versions[k] == Stored(if k < |ts| then ts[k] else [], 4)
  {
    hide Stored;
    assert g == seq(|g|, _ => TextRule(4));
    NoVersion();
  }

  lemma NoVersion()
    ensures Stored([], 4) == [0, 0, 0, 0]
  {
  }

  // ----- whole messages

  /** So is any message of such a body: hexadecimal digits, a type, and a row that may end early. */
  lemma GivenIsAccepted(s: seq<byte>, n: nat, ts: seq<seq<byte>>, want: int)
    requires H.IsHeader(s, n)
    requires var t := DeserializeType(s[n + 1], s[n + 2]);
             && want in {0, t} && t in CHECKED && Grammar(t, |s|).Some? && MayEnd(t, |ts|)
             && var g := Grammar(t, |s|).value;
                |ts| <= |g| && IsRow(g[..|ts|], ts) && AreGiven(g, ts) && s[n + 4..] == Joined(g[..|ts|], ts)
    ensures var t := DeserializeType(s[n + 1], s[n + 2]);
            var g := Grammar(t, |s|).value;
            && Grammar(t, |g|) == Some(g)
            && var vs := seq(|g|, k requires 0 <= k < |g| =>
                               Stores(g[k].store, if k < |ts| then Taken(ts[k]) else Absent));
               Parse(s, want) == Accepted(Msg(ParseHex(s[..n]), Build(t, vs)), [])
  {
    hide DeserializeType, ParseHex, ReadHead, ReadBody, H.IsName, A.Run, Grammar, MayEnd, IsRow, AreGiven, Joined,
         Build, Stores;
    HeadMeans(s, want, 0, n);
    GivenIsRead(DeserializeType(s[n + 1], s[n + 2]), ts, s, n + 4);
    NothingBehind(s);
  }

  /** A K0 may leave out its output: the answer of an attendant who enters nothing. */
  lemma ResultIsEnough(x: seq<byte>, d: seq<byte>, want: int)
    requires 1 <= |x| <= 6 && (forall b | b in x :: IsXdigit(b)) && want in {0, FROB_K0}
    requires d != [] && forall b | b in d :: IsDigit(b)
    ensures var s := x + [FS, 'K' as int, '0' as int, FS] + d + [FS];
            var r := Parse(s, want);
            && r.Accepted? && r.attr == [] && r.msg.token == ParseHex(x)
            && r.msg.body == BodyK0(Narrowed(StrTol(d), LONG), Stored([], 100))
  {
    hide ParseHex, StrTol, Stored, Narrowed, Parse, H.IsHeader, IsRow, H.IsName, DeserializeType, MayEnd, Grammar,
         Joined, Build, Stores, CHECKED;
    var rest := [FS, 'K' as int, '0' as int, FS] + d + [FS];
    var s := x + [FS, 'K' as int, '0' as int, FS] + d + [FS];
    assert s == x + rest && rest[4..] == d + [FS];
    KZero(|s|);
    HeaderBefore(x, rest);
    ResultRow(d);
    GivenIsAccepted(s, |x|, [d], want);
  }

  lemma ResultRow(d: seq<byte>)
    requires d != [] && forall b | b in d :: IsDigit(b)
    ensures var g := [NumberRule(LONG), AnyRule(100, FS)];
            && IsRow(g[..1], [d]) && AreGiven(g, [d]) && Joined(g[..1], [d]) == d + [FS]
            && var vs := seq(2, k requires 0 <= k < 2 => Stores(g[k].store, if k < 1 then Taken([d][k]) else Absent));
               Build(FROB_K0, vs) == BodyK0(Narrowed(StrTol(d), LONG), Stored([], 100))
  {
    hide StrTol, Stored, Narrowed, Joined;
    var g := [NumberRule(LONG), AnyRule(100, FS)];
    assert g[..1] == [g[0]];
    JoinedOne(g[0], d);
    var vs := [Stores(Strtol(LONG), Taken(d)), Stores(Copy(100), Absent)];
    assert vs == seq(2, k requires 0 <= k < 2 => Stores(g[k].store, if k < 1 then Taken([d][k]) else Absent));
  }

  lemma KZero(n: nat)
    ensures Grammar(FROB_K0, n) == Some([NumberRule(LONG), AnyRule(100, FS)])
    ensures MayEnd(FROB_K0, 1) && FROB_K0 in CHECKED && TypeOf(BodyK0(0, [])) == FROB_K0
    ensures DeserializeType('K' as int, '0' as int) == FROB_K0 && H.IsName('K' as int, '0' as int)
  {
  }

  // ----- values

  predicate IsSpace(b: byte) {
    b == 0x20 || 9 <= b <= 13
  }

  lemma {:induction false} SpacesSkipped(spaces: seq<byte>, t: seq<byte>)
    requires (forall b | b in spaces :: IsSpace(b)) && (t != [] ==> !IsSpace(t[0]))
    ensures SkipSpaces(spaces + t) == t
  {
    if spaces == [] {
      assert spaces + t == t;
    } else {
      assert spaces[0] in spaces && (spaces + t)[1..] == spaces[1..] + t;
      SpacesSkipped(spaces[1..], t);
    }
  }

  lemma {:induction false} DigitsTaken(d: seq<byte>, rest: seq<byte>)
    requires (forall b | b in d :: IsDigit(b)) && (rest != [] ==> !IsDigit(rest[0]))
    ensures LeadingDigits(d + rest) == d
  {
    if d == [] {
      assert d + rest == rest;
    } else {
      assert d[0] in d && (d + rest)[1..] == d[1..] + rest;
      DigitsTaken(d[1..], rest);
    }
  }

  /** The largest `long` is 2^63 - 1, the smallest -2^63. */
  function Clamped(n: int): int {
    if n >= LONG / 2 then LONG / 2 - 1 else if n < -(LONG / 2) then -(LONG / 2) else n
  }

  /** `strtol` on any text: spaces, perhaps a sign, the number, and whatever follows. */
  lemma NumberMeans(spaces: seq<byte>, sign: seq<byte>, d: seq<byte>, rest: seq<byte>)
    requires (forall b | b in spaces :: IsSpace(b)) && sign in {[], ['+' as int], ['-' as int]}
    requires (forall b | b in d :: IsDigit(b)) && (rest != [] ==> !IsDigit(rest[0]))
    requires d == [] && sign == [] && rest != [] ==> !IsSpace(rest[0]) && rest[0] !in {'+' as int, '-' as int}
    ensures var n: int := ParseDec(d);
            StrTol(spaces + sign + d + rest) == Clamped(if sign == ['-' as int] then -n else n)
  {
    hide ParseDec, SkipSpaces, LeadingDigits, IsDigit, IsSpace, Clamped;
    var t := sign + d + rest;
    assert spaces + sign + d + rest == spaces + t;
    SignTaken(sign, d, rest);
    SpacesSkipped(spaces, t);
    DigitsTaken(d, rest);
    NothingIsZero();
    ClampedMeans(ParseDec(d));
  }

  lemma ClampedMeans(n: nat)
    ensures Clamped(n) == if n >= LONG / 2 then LONG / 2 - 1 else n
    ensures Clamped(-(n as int)) == if n > LONG / 2 then -(LONG / 2) else -(n as int)
  {
  }

  /** What `strtol` finds behind the spaces. */
  lemma SignTaken(sign: seq<byte>, d: seq<byte>, rest: seq<byte>)
    requires sign in {[], ['+' as int], ['-' as int]} && forall b | b in d :: IsDigit(b)
    requires d == [] && sign == [] && rest != [] ==> !IsSpace(rest[0]) && rest[0] !in {'+' as int, '-' as int}
    ensures var t := sign + d + rest;
            && (t != [] ==> !IsSpace(t[0]))
            && (t != [] && t[0] == '-' as int <==> sign == ['-' as int])
            && (if t != [] && t[0] in {'-' as int, '+' as int} then t[1..] else t) == d + rest
  {
    hide IsDigit, IsSpace;
    var t := sign + d + rest;
    SignsAreNeither();
    if sign != [] {
      assert t[0] == sign[0] && t[1..] == d + rest;
    } else if d != [] {
      assert t[0] == d[0] && d[0] in d && t == d + rest;
    } else {
      assert t == rest == d + rest;
    }
  }

  lemma SignsAreNeither()
    ensures forall b: byte | IsDigit(b) || b in {'+' as int, '-' as int} :: !IsSpace(b)
    ensures forall b: byte | IsDigit(b) :: b !in {'+' as int, '-' as int}
  {
  }

  lemma NothingIsZero()
    ensures ParseDec([]) == 0
  {
  }

  /** What each kind of field makes of a text it can hold. */
  lemma FieldMeans(r: Rule, t: seq<byte>)
    requires WellMade(r) && Clean(r, t) && t != []
    ensures var v := Stores(r.store, Taken(t));
            match r.store
            case Skip => true
            case Copy(width) => v.Str? && |v.chars| == width &&
                                forall k | 0 <= k < width :: v.chars[k] == if k < |t| then t[k] else 0
            case Strtol(bound) => v == Num(Clamped(ParseDec(t)) % bound)
            case UnHex(width) => v.Hex? && |v.bytes| == width &&
                                 forall k | 0 <= k < width :: v.bytes[k] == NibblesAt(t, k)
            case Strbool => v == Bool(t == ['1' as int])
            case TrxCode => v == Trx(t == ['C' as int])
            case Topo => v == Num(ParseDec(t)) && ParseDec(t) < 4
  {
    hide ParseDec, Unhexed, StrTol, Clamped, Clean, Stores;
    match r.store
    case Skip =>
    case Copy(width) => TextStored(t, width);
    case Strtol(bound) => NumberStored(t, r);
    case UnHex(width) => BytesStored(t, width);
    case Strbool => CodeStored(t, r);
    case TrxCode => CodeStored(t, r);
    case Topo => CodeStored(t, r);
  }

  lemma TextStored(t: seq<byte>, width: nat)
    ensures var v := Stores(Copy(width), Taken(t));
            v.Str? && |v.chars| == width && forall k | 0 <= k < width :: v.chars[k] == if k < |t| then t[k] else 0
  {
  }

  lemma NumberStored(t: seq<byte>, r: Rule)
    requires r.store.Strtol? && WellMade(r) && Clean(r, t) && t != []
    ensures Stores(r.store, Taken(t)) == Num(Clamped(ParseDec(t)) % r.store.bound)
  {
    hide ParseDec, StrTol, WellMade, Clean, Clamped, Narrowed;
    DigitsOnly(t, r);
    assert [] + [] + t + [] == t;
    NumberMeans([], [], t, []);
    NarrowedMeans(ParseDec(t), r.store.bound);
  }

  lemma DigitsOnly(t: seq<byte>, r: Rule)
    requires r.store.Strtol? && WellMade(r) && Clean(r, t)
    ensures (forall b | b in t :: IsDigit(b)) && r.store.bound > 0
  {
  }

  lemma NarrowedMeans(n: nat, bound: nat)
    requires bound > 0
    ensures Clamped(n) >= 0 && Narrowed(Clamped(n), bound) == Clamped(n) % bound
  {
  }

  lemma BytesStored(t: seq<byte>, width: nat)
    ensures var v := Stores(UnHex(width), Taken(t));
            v.Hex? && |v.bytes| == width && forall k | 0 <= k < width :: v.bytes[k] == NibblesAt(t, k)
  {
    hide Unhexed;
    UnhexedLength(t);
    forall k | 0 <= k < width ensures Stored(Unhexed(t), width)[k] == NibblesAt(t, k) {
      if 2 * k < |t| {
        UnhexedMeans(t, k);
      }
    }
  }

  lemma CodeStored(t: seq<byte>, r: Rule)
    requires (r.store.Strbool? || r.store.TrxCode? || r.store.Topo?) && WellMade(r) && Clean(r, t) && t != []
    ensures r.store.Strbool? ==> Stores(r.store, Taken(t)) == Bool(t == ['1' as int])
    ensures r.store.TrxCode? ==> Stores(r.store, Taken(t)) == Trx(t == ['C' as int])
    ensures r.store.Topo? ==> Stores(r.store, Taken(t)) == Num(ParseDec(t)) && ParseDec(t) < 4
  {
    hide ParseDec;
    assert t == [t[0]] && t[0] in t;
    if r.store.Topo? {
      OneDigit(t);
    }
  }

  /** The byte that two digits stand for; a last odd one stands for its upper half, a missing one for 0. */
  function NibblesAt(t: seq<byte>, k: nat): int {
    if 2 * k >= |t| then 0 else 16 * Hex2Nibble(t[2 * k]) + if 2 * k + 1 < |t| then Hex2Nibble(t[2 * k + 1]) else 0
  }

  lemma OneDigit(t: seq<byte>)
    requires |t| == 1 && forall b | b in t :: InClass(Topology, b)
    ensures t[0] == 0x30 + ParseDec(t)
  {
    assert t[0] in t && t[..0] == [];
    NothingIsZero();
  }

  // ----- attributes

  /** Behind a T1 or D4 the reader takes attributes, and copies the first nineteen: of each its first three bytes,
      padded with NUL. */
  lemma WithAttributes(m: Msg, us: seq<seq<byte>>, want: int)
    requires m.body.BodyT1? || m.body.BodyD4?
    requires m.token < 0x100_0000 && want in {0, TypeOf(m.body) as int}
    requires us != [] && us[0] != [] && forall u | u in us :: A.IsUnit(u)
    ensures var r := Parse(Payload(m) + A.Units(us) + [FS], want);
            && r.Accepted? && r.msg == m
            && |r.attr| == (if |us| < 19 then |us| else 19)
            && forall k | 0 <= k < |r.attr| && us[k] != [] ::
                 |r.attr[k]| == 3 && forall i | 0 <= i < 3 :: r.attr[k][i] == if i < |us[k]| then us[k][i] else 0
  {
    hide Parse, Payload, A.Units, A.Run, A.IsFinal, ReadHead, ReadBody, PrintHex, A.IsUnit, Since, TypeOf, IsType;
    var s := Payload(m) + A.Units(us) + [FS];
    var p := |PrintHex(m.token)| + 4;
    HeadOfMore(m, A.Units(us) + [FS], want);
    assert Payload(m) + (A.Units(us) + [FS]) == s;
    A.UnitsBegin(us);
    FirstIsText(us[0]);
    assert s[p] == s[p..][0] == us[0][0];
    BareStops(m.body, s, p, us[0]);
    A.UnitsCopied(us, s, p);
    A.UnsetExactly(s, p);
    ParseIs(m, s, p, want);
    var g, n := A.UnitRules(|us|), A.Least(|us|, A.MAX_UNITS);
    forall k | 0 <= k < n && us[k] != [] ensures Captures(g, us, n)[k] == Taken(us[k]) {
    }
  }

  lemma ParseIs(m: Msg, s: seq<byte>, p: nat, want: int)
    requires p <= |s| && ReadHead(s, want, 0) == Head(H.Ok, p, TypeOf(m.body), m.token)
    requires ReadBody(TypeOf(m.body), s, p) == Inner(H.Ok, p, Some(m.body))
    requires A.IsFinal(A.Run(A.FRESH, s, p)) && Wild !in A.Run(A.FRESH, s, p).cf.units
    ensures Parse(s, want) == Accepted(m, A.Copied(A.Run(A.FRESH, s, p).cf.units))
  {
    hide ReadHead, ReadBody, A.Run, A.IsFinal, A.Copied;
  }

  lemma BareStops(b: Body, s: seq<byte>, p: nat, u: seq<byte>)
    requires (b.BodyT1? || b.BodyD4?) && p < |s| && u != [] && A.IsUnit(u) && s[p] == u[0]
    ensures ReadBody(TypeOf(b), s, p) == Inner(H.Ok, p, Some(b))
  {
    assert u[0] in u;
    assert Run([LoneRule()], START, s, p) == Halt(START, p, true);
  }

  /** The header of a written message, whatever stands behind the message. */
  lemma HeadOfMore(m: Msg, more: seq<byte>, want: int)
    requires m.body.BodyT1? || m.body.BodyD4?
    requires m.token < 0x100_0000 && want in {0, TypeOf(m.body) as int}
    ensures var s, p := Payload(m) + more, |PrintHex(m.token)| + 4;
            && p <= |s| && s[p..] == more && ReadHead(s, want, 0) == Head(H.Ok, p, TypeOf(m.body), m.token)
  {
    hide PrintHex, ParseHex, TypeToString, TypeOf, IsType, Payload, ReadHead, DeserializeType, H.IsHeader, BodyParts,
         Flat;
    var x, n := Payload(m), |PrintHex(m.token)|;
    HeadBytes(m);
    NoBody(m.body);
    WrittenHeader(m);
    HeaderStays(x, more, n);
    HexRoundTrip(m.token);
    HeadMeans(x + more, want, 0, n);
  }

  lemma WrittenHeader(m: Msg)
    requires (m.body.BodyT1? || m.body.BodyD4?) && m.token < 0x100_0000
    ensures var s, n := Payload(m), |PrintHex(m.token)|;
            && H.IsHeader(s, n) && DeserializeType(s[n + 1], s[n + 2]) == TypeOf(m.body)
  {
    hide PrintHex, TypeToString, TypeOf, IsType, Payload, DeserializeType, H.IsName, BodyParts, Flat;
    HeadBytes(m);
    NamesOfTypes(m.body);
    TypeRoundTrip(TypeOf(m.body));
    NotDa(m.body);
  }

  lemma HeaderStays(s: seq<byte>, more: seq<byte>, n: nat)
    requires H.IsHeader(s, n)
    ensures var t := s + more;
            && H.IsHeader(t, n) && t[..n] == s[..n] && t[n + 1] == s[n + 1] && t[n + 2] == s[n + 2]
            && t[n + 4..] == s[n + 4..] + more
  {
    hide H.IsName;
  }

  lemma NoBody(b: Body)
    requires b.BodyT1? || b.BodyD4?
    ensures Flat(BodyParts(b)) == []
  {
  }

  lemma NotDa(b: Body)
    requires b.BodyT1? || b.BodyD4?
    ensures TypeOf(b) != FROB_DA && !b.BodyI1? && !b.BodyA2?
  {
  }
}
