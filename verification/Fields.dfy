/** What happens to the value of one field on its way through the writer and the reader. */
module Fields {
  import opened Bytes
  import opened Numerals
  import opened Message
  import opened FieldMachine
  import opened Bodies
  import opened Rows

  /** The shapes of fields that fsm/body.rl has. */
  ghost predicate WellMade(r: Rule) {
    && Proper(r) && r.sep in {FS, US} && (r.min > 0 ==> r.sep == FS)
    && match r.store
       case Skip => r.cls == Nothing && r.min == 0
       case Copy(width) => width > 0 && (r.max.Some? ==> width <= r.max.value)
       case Strtol(bound) =>
          r.cls == Digit && r.min == 0 && r.max.None? && !r.optional && (0 < bound <= WORD || bound == LONG)
       case UnHex(width) => width > 0 && r.cls == Xdigit && r.min == 0 && r.max.None? && !r.optional
       case Strbool => r.cls == Digit && r.min == 1 && r.max == Some(1) && !r.optional
       case TrxCode => r.cls == SOrC && r.min == 1 && r.max == Some(1) && !r.optional
       case Topo => r.cls == Topology && r.min == 1 && r.max == Some(1) && !r.optional
  }

  /** The value belongs to the field: a text of its width, a number of its type. */
  ghost predicate Fits(r: Rule, v: Value) {
    match r.store
    case Skip => v == Str([])
    case Copy(width) => v.Str? && |v.chars| == width
    case Strtol(bound) => v.Num? && (v.n < bound || bound == LONG)
    case UnHex(width) => v.Hex? && |v.bytes| == width
    case Strbool => v == Num(0) || v == Num(1)
    case TrxCode => v.Trx?
    case Topo => v.Num? && v.n < 4
  }

  /** What is written consists of bytes that the field may hold. */
  ghost predicate Holds(r: Rule, v: Value) {
    Clean(r, Content(v))
  }

  /** ... or at least of no separators. */
  ghost predicate IsApart(r: Rule, v: Value) {
    Separators(Content(v)) == 0
  }

  /** The reader gets past the field. */
  ghost predicate Passes(r: Rule, v: Value) {
    LongEnough(r, Content(v))
  }

  /** The reader restores the value: an array has to be padded, and not to be empty unless the field may be
      left out; a number has to fit into the 32 bits it is printed from. */
  ghost predicate Keeps(r: Rule, v: Value) {
    match r.store
    case Copy(_) => v.Str? && IsPadded(v.chars) && (Text(v.chars) != [] || r.optional)
    case Strtol(_) => v.Num? && v.n < WORD
    case _ => true
  }

  lemma {:induction false} DigitsLead(t: seq<byte>)
    requires forall b | b in t :: IsDigit(b)
    ensures LeadingDigits(t) == t
  {
    if t != [] {
      assert t[0] in t;
      DigitsLead(t[1..]);
    }
  }

  lemma StrTolOfPrinted(n: nat)
    requires n < WORD
    ensures StrTol(PrintDec(n)) == n
  {
    hide ParseDec, PrintDec, LeadingDigits;
    DecRoundTrip(n);
    var t := PrintDec(n);
    assert t[0] in t;
    DigitsLead(t);
  }

  lemma DigitText(d: nat)
    requires d < 10
    ensures PrintDec(d) == [0x30 + d]
  {
  }

  /** Only texts can hold anything else ... */
  lemma OtherHolds(r: Rule, v: Value)
    requires WellMade(r) && Fits(r, v) && !r.store.Copy?
    ensures Holds(r, v)
  {
    hide PrintDec, HexBytes;
    match r.store
    case Skip =>
    case Strtol(_) => DecRoundTrip(v.n % WORD);
    case UnHex(_) => BytesRoundTrip(v.bytes);
    case Strbool => DigitText(v.n);
    case TrxCode =>
    case Topo => DigitText(v.n);
  }

  /** ... and are ever too short or empty. */
  lemma OtherContents(r: Rule, v: Value)
    requires WellMade(r) && Fits(r, v) && !r.store.Copy? && !r.store.Skip?
    ensures LongEnough(r, Content(v)) && Content(v) != []
  {
    hide PrintDec, HexBytes;
    match r.store
    case Strtol(_) => DecRoundTrip(v.n % WORD);
    case UnHex(_) => BytesRoundTrip(v.bytes);
    case Strbool => DigitText(v.n);
    case TrxCode =>
    case Topo => DigitText(v.n);
  }

  /** A text may be too long for no field. */
  lemma TextHolds(r: Rule, v: Value)
    requires WellMade(r) && Fits(r, v) && r.store.Copy?
    ensures Holds(r, v) <==> forall b | b in Text(v.chars) :: InClass(r.cls, b)
  {
  }

  /** A field of another kind has no bytes a class refuses; a text may have one, and it is the first. */
  lemma FirstForeign(r: Rule, v: Value) returns (i: nat)
    requires WellMade(r) && Fits(r, v) && !Holds(r, v) && IsApart(r, v)
    ensures i < |Content(v)| && Clean(r, Content(v)[..i])
    ensures !InClass(r.cls, Content(v)[i]) && !IsSeparator(Content(v)[i]) && r.store.Copy?
  {
    hide InClass, WellMade, Separators, PrintDec, HexBytes, Text;
    OnlyTextsAreForeign(r, v);
    TextHolds(r, v);
    i := ForeignByte(r, Text(v.chars));
    NoSeparators(Text(v.chars));
    ShortEnough(r, v, i);
  }

  lemma OnlyTextsAreForeign(r: Rule, v: Value)
    requires WellMade(r) && Fits(r, v) && !Holds(r, v)
    ensures r.store.Copy?
  {
    hide Holds;
    if !r.store.Copy? {
      OtherHolds(r, v);
    }
  }

  lemma ForeignByte(r: Rule, t: seq<byte>) returns (i: nat)
    requires !forall b | b in t :: InClass(r.cls, b)
    ensures i < |t| && !InClass(r.cls, t[i]) && t[i] in t && forall b | b in t[..i] :: InClass(r.cls, b)
  {
    hide InClass;
    i := 0;
    while i < |t| && InClass(r.cls, t[i])
      invariant i <= |t| && forall j | 0 <= j < i :: InClass(r.cls, t[j])
    {
      i := i + 1;
    }
  }

  lemma ShortEnough(r: Rule, v: Value, i: nat)
    requires WellMade(r) && Fits(r, v) && r.store.Copy? && i <= |Text(v.chars)|
    requires forall b | b in Text(v.chars)[..i] :: InClass(r.cls, b)
    ensures Clean(r, Text(v.chars)[..i])
  {
    hide InClass;
  }

  /** What a field with this text leaves behind. */
  ghost predicate IsCapture(r: Rule, t: seq<byte>, marked: bool, c: Captured) {
    if t != [] then c == Taken(t)
    else if r.optional || r.store.Skip? then c == Absent
    else if marked then c.Stale? && c.text != [] && c.text[0] != 0
    else c == Wild
  }

  lemma CaptureMeans(g: seq<Rule>, ts: seq<seq<byte>>, k: nat)
    requires k < |ts| <= |g| && forall j | 0 <= j < k :: Clean(g[j], ts[j])
    ensures IsCapture(g[k], ts[k], Since(g, ts, k).Some?, CaptureOf(g, ts, k))
  {
    hide Clean, Since;
    SinceMeans(g, ts, k);
  }

  lemma TextKept(r: Rule, a: seq<byte>, c: Captured, marked: bool)
    requires r.store == Copy(|a|) && |a| > 0 && IsCapture(r, Text(a), marked, c) && (marked || Text(a) != [])
    ensures c != Wild
    ensures Stored(Seen(c), |a|) == a <==> IsPadded(a) && (Text(a) != [] || r.optional)
  {
    TextRoundTrip(a);
    if Text(a) == [] && !r.optional {
      assert Stored(Seen(c), |a|)[0] == Seen(c)[0] != 0;
    }
  }

  lemma NumberKept(r: Rule, v: Value, c: Captured)
    requires WellMade(r) && Fits(r, v) && r.store.Strtol? && c == Taken(Content(v))
    ensures Stores(r.store, c) == v <==> v.n < WORD
  {
    hide StrTol, PrintDec;
    StrTolOfPrinted(v.n % WORD);
    assert v.n < WORD ==> v.n % WORD == v.n;
  }

  lemma BytesKept(r: Rule, v: Value, c: Captured)
    requires Fits(r, v) && r.store.UnHex? && c == Taken(Content(v))
    ensures Unhexed(Seen(c)) == v.bytes && Stores(r.store, c) == v
  {
    hide Unhexed, HexBytes;
    BytesRoundTrip(v.bytes);
    assert Stored(v.bytes, |v.bytes|) == v.bytes;
  }

  lemma BitKept(r: Rule, v: Value, c: Captured)
    requires WellMade(r) && Fits(r, v) && c == Taken(Content(v))
    requires r.store.Strbool? || r.store.TrxCode? || r.store.Topo?
    ensures Stores(r.store, c) == v
  {
    if v.Num? {
      DigitText(v.n);
    }
  }

  /** A field that the reader passes is kept exactly under that condition. */
  lemma FieldKept(r: Rule, v: Value, c: Captured, marked: bool)
    requires WellMade(r) && Fits(r, v) && Passes(r, v) && IsCapture(r, Content(v), marked, c)
    requires marked || Content(v) != []
    ensures c != Wild && (r.store.UnHex? ==> |Unhexed(Seen(c))| == r.store.width)
    ensures Shaped(r.store, Stores(r.store, c))
    ensures Stores(r.store, c) == v <==> Keeps(r, v)
  {
    hide PrintDec, HexBytes, Unhexed, StrTol, Stored, IsPadded;
    match r.store
    case Skip =>
    case Copy(_) => TextKept(r, v.chars, c, marked);
    case Strtol(_) =>
      DecRoundTrip(v.n % WORD);
      NumberKept(r, v, c);
    case UnHex(width) =>
      OtherContents(r, v);
      BytesKept(r, v, c);
    case Strbool =>
      OtherContents(r, v);
      BitKept(r, v, c);
    case TrxCode => BitKept(r, v, c);
    case Topo =>
      OtherContents(r, v);
      BitKept(r, v, c);
  }
}
