/** The attribute machine of fsm/attrs.rl: units of text, each closed by US, then FS; or nothing. */
module Attributes {
  import opened Bytes
  import opened Numerals
  import opened FieldMachine
  import opened Bodies
  import opened Cutting

  /** `empty`: nothing of the present unit has been read. */
  datatype State = Outside | Inside(empty: bool) | Past

  /** `mark` is the pointer `c`, uninitialised at first; `units` what the copies of `@Unit` saw. */
  datatype Attr = Attr(st: State, mark: Option<nat>, units: seq<Captured>)

  const FRESH: Attr := Attr(Outside, None, [])

  /** `elementsof(*out)`: later units are read, but not copied. */
  const MAX_UNITS: nat := 19

  ghost predicate IsSane(cf: Attr, p: nat) {
    && (cf.mark.Some? ==> cf.mark.value <= p)
    && (cf.st.Inside? && !cf.st.empty ==> cf.mark.Some?)
  }

  /** What a copy at position p sees. */
  function Unit(cf: Attr, s: seq<byte>, p: nat): Captured
    requires p < |s| && (cf.mark.Some? ==> cf.mark.value <= p)
  {
    if cf.mark.None? then Wild
    else if cf.st == Inside(false) then Taken(s[cf.mark.value..p])
    else Stale(s[cf.mark.value..p])
  }

  function Next(cf: Attr, s: seq<byte>, p: nat): (r: Option<Attr>)
    requires p < |s| && (cf.mark.Some? ==> cf.mark.value <= p)
    ensures r.Some? && IsSane(cf, p) ==> IsSane(r.value, p + 1)
    ensures r.Some? && r.value.mark.Some? ==> r.value.mark.value <= p + 1
  {
    if cf.st.Past? then None
    else if InClass(Printable, s[p]) then
      Some(cf.(st := Inside(false), mark := if cf.st == Inside(false) then cf.mark else Some(p)))
    else if s[p] == US then
      Some(cf.(st := Inside(true),
               units := if |cf.units| < MAX_UNITS then cf.units + [Unit(cf, s, p)] else cf.units))
    else if s[p] == FS && cf.st == Inside(true) then Some(cf.(st := Past))
    else None
  }

  datatype Ended = Ended(cf: Attr, p: nat, failed: bool)

  function Run(cf: Attr, s: seq<byte>, p: nat): (r: Ended)
    requires p <= |s| && (cf.mark.Some? ==> cf.mark.value <= p)
    ensures p <= r.p <= |s| && (!r.failed ==> r.p == |s|)
    decreases |s| - p
  {
    if p == |s| then Ended(cf, p, false)
    else
      var next := Next(cf, s, p);
      if next.None? then Ended(cf, p, true) else Run(next.value, s, p + 1)
  }

  /** `cs >= first_final` */
  predicate IsFinal(r: Ended) {
    !r.failed && (r.cf.st.Outside? || r.cf.st.Past?)
  }

  // ----- what is accepted

  predicate IsText(b: byte) {
    0x20 <= b < 0x7F || b == US
  }

  predicate IsAttributes(s: seq<byte>, p: nat)
    requires p <= |s|
  {
    p == |s| || (p + 1 < |s| && (forall k | p <= k < |s| - 1 :: IsText(s[k])) && s[|s| - 2] == US && s[|s| - 1] == FS)
  }

  /** The machine accepts exactly nothing, or texts with US behind each and one FS. */
  lemma AttributesMean(s: seq<byte>, p: nat)
    requires p <= |s|
    ensures IsFinal(Run(FRESH, s, p)) <==> IsAttributes(s, p)
  {
    if p < |s| {
      AttributesRead(s, p, FRESH);
    }
  }

  lemma {:induction false} AttributesRead(s: seq<byte>, p: nat, cf: Attr)
    requires p <= |s| && IsSane(cf, p) && !cf.st.Past? && (cf.st.Outside? ==> p < |s|)
    ensures IsFinal(Run(cf, s, p)) <==>
            && p < |s| && (forall k | p <= k < |s| - 1 :: IsText(s[k])) && s[|s| - 1] == FS
            && (if p == |s| - 1 then cf.st == Inside(true) else s[|s| - 2] == US)
    decreases |s| - p
  {
    hide Unit;
    if p < |s| && Next(cf, s, p).Some? {
      var next := Next(cf, s, p).value;
      if next.st.Past? {
        assert Run(next, s, p + 1) == Ended(next, p + 1, p + 1 < |s|);
      } else {
        AttributesRead(s, p + 1, next);
      }
    }
  }

  // ----- what is copied

  /** The pointer is read before it is set exactly if the first unit is empty. */
  lemma UnsetExactly(s: seq<byte>, p: nat)
    requires p <= |s|
    ensures Wild in Run(FRESH, s, p).cf.units <==> p < |s| && s[p] == US
  {
    if p < |s| && Next(FRESH, s, p).Some? {
      var next := Next(FRESH, s, p).value;
      if s[p] == US {
        assert next.units[0] == Wild;
        UnitsGrow(next, s, p + 1);
        assert Run(next, s, p + 1).cf.units[0] == next.units[0];
      } else {
        NeverUnset(next, s, p + 1);
      }
    }
  }

  lemma {:induction false} UnitsGrow(cf: Attr, s: seq<byte>, p: nat)
    requires p <= |s| && (cf.mark.Some? ==> cf.mark.value <= p)
    ensures cf.units <= Run(cf, s, p).cf.units
    decreases |s| - p
  {
    if p < |s| && Next(cf, s, p).Some? {
      UnitsGrow(Next(cf, s, p).value, s, p + 1);
    }
  }

  lemma {:induction false} NeverUnset(cf: Attr, s: seq<byte>, p: nat)
    requires p <= |s| && cf.mark.Some? && cf.mark.value <= p && Wild !in cf.units
    ensures Wild !in Run(cf, s, p).cf.units
    decreases |s| - p
  {
    if p < |s| && Next(cf, s, p).Some? {
      NeverUnset(Next(cf, s, p).value, s, p + 1);
    }
  }

  ghost predicate IsUnit(u: seq<byte>) {
    forall b | b in u :: InClass(Printable, b)
  }

  function Units(us: seq<seq<byte>>): seq<byte> {
    Lines(US, us)
  }

  function UnitRules(n: nat): (g: seq<Rule>)
    ensures |g| == n
  {
    seq(n, _ => AnyRule(3, US))
  }

  function Least(a: nat, b: nat): nat {
    if a < b then a else b
  }

  /** The machine behind k units. */
  ghost predicate IsBehind(us: seq<seq<byte>>, cf: Attr, s: seq<byte>, p: nat, k: nat)
    requires k <= |us|
  {
    && p <= |s| && IsSane(cf, p)
    && cf.st == (if k == 0 then Outside else Inside(true))
    && cf.units == Captures(UnitRules(|us|), us, Least(k, MAX_UNITS))
    && (cf.mark.Some? <==> Since(UnitRules(|us|), us, k).Some?)
    && (cf.mark.Some? ==> s[cf.mark.value..p] == Since(UnitRules(|us|), us, k).value)
  }

  lemma {:induction false} UnitBytes(cf: Attr, s: seq<byte>, p: nat, t: seq<byte>, i: nat)
    requires 0 < i <= |t| && p + |t| <= |s| && s[p..p + |t|] == t && IsSane(cf, p)
    requires cf.st == Outside || cf.st == Inside(true)
    requires IsUnit(t)
    ensures Run(cf, s, p) == Run(cf.(st := Inside(false), mark := Some(p)), s, p + i)
    decreases i
  {
    hide InClass, Unit;
    assert s[p + i - 1] == t[i - 1] && t[i - 1] in t;
    if i > 1 {
      UnitBytes(cf, s, p, t, i - 1);
    }
  }

  /** The machine at the US of a unit. */
  function AtEnd(cf: Attr, p: nat, t: seq<byte>): Attr {
    if t == [] then cf else cf.(st := Inside(false), mark := Some(p))
  }

  lemma MarkBehind(us: seq<seq<byte>>, cf: Attr, s: seq<byte>, p: nat, k: nat)
    requires k < |us| && IsBehind(us, cf, s, p, k)
    requires p + |us[k]| < |s| && s[p..p + |us[k]|] == us[k] && s[p + |us[k]|] == US
    ensures var m, x := AtEnd(cf, p, us[k]).mark, Since(UnitRules(|us|), us, k + 1);
            && (m.Some? <==> x.Some?) && (m.Some? ==> m.value <= p && s[m.value..p + |us[k]| + 1] == x.value)
  {
    var t, end := us[k], p + |us[k]|;
    assert s[p..end + 1] == t + [US];
    if cf.mark.Some? {
      assert s[cf.mark.value..end + 1] == s[cf.mark.value..p] + t + [US];
    }
  }

  lemma UnitCaptured(us: seq<seq<byte>>, cf: Attr, s: seq<byte>, p: nat, k: nat)
    requires k < |us| && IsBehind(us, cf, s, p, k)
    requires p + |us[k]| < |s| && s[p..p + |us[k]|] == us[k] && s[p + |us[k]|] == US
    ensures var at := AtEnd(cf, p, us[k]);
            (at.mark.Some? ==> at.mark.value <= p) && Unit(at, s, p + |us[k]|) == CaptureOf(UnitRules(|us|), us, k)
  {
    if us[k] == [] {
      assert p + |us[k]| == p;
    }
  }

  lemma CapturesGrow(us: seq<seq<byte>>, k: nat)
    requires k < |us| && k < MAX_UNITS
    ensures Captures(UnitRules(|us|), us, k + 1) ==
            Captures(UnitRules(|us|), us, k) + [CaptureOf(UnitRules(|us|), us, k)]
  {
  }

  lemma UnitToEnd(cf: Attr, s: seq<byte>, p: nat, t: seq<byte>)
    requires p + |t| <= |s| && s[p..p + |t|] == t && IsSane(cf, p) && (cf.st == Outside || cf.st == Inside(true))
    requires IsUnit(t)
    ensures var at := AtEnd(cf, p, t); IsSane(at, p + |t|) && Run(cf, s, p) == Run(at, s, p + |t|)
  {
    hide Run, IsUnit;
    if t != [] {
      UnitBytes(cf, s, p, t, |t|);
    }
  }

  lemma UnitEnds(cf: Attr, s: seq<byte>, p: nat) returns (cf': Attr)
    requires p < |s| && s[p] == US && IsSane(cf, p) && !cf.st.Past?
    ensures cf' == Attr(Inside(true), cf.mark, if |cf.units| < MAX_UNITS then cf.units + [Unit(cf, s, p)] else cf.units)
    ensures Run(cf, s, p) == Run(cf', s, p + 1)
  {
    hide Unit;
    cf' := Next(cf, s, p).value;
  }

  lemma UnitRead(us: seq<seq<byte>>, cf: Attr, s: seq<byte>, p: nat, k: nat) returns (cf': Attr)
    requires k < |us| && IsBehind(us, cf, s, p, k)
    requires p + |us[k]| < |s| && s[p..p + |us[k]|] == us[k] && s[p + |us[k]|] == US
    requires IsUnit(us[k])
    ensures IsBehind(us, cf', s, p + |us[k]| + 1, k + 1) && Run(cf, s, p) == Run(cf', s, p + |us[k]| + 1)
  {
    hide Since, CaptureOf, Captures, UnitRules, Unit, Run, IsUnit, Next;
    UnitToEnd(cf, s, p, us[k]);
    MarkBehind(us, cf, s, p, k);
    UnitCaptured(us, cf, s, p, k);
    cf' := UnitEnds(AtEnd(cf, p, us[k]), s, p + |us[k]|);
    if k < MAX_UNITS {
      CapturesGrow(us, k);
    }
  }

  lemma UnitsSlices(us: seq<seq<byte>>, s: seq<byte>, p: nat, n: nat)
    requires 0 < n <= |us| && p + |Units(us[..n])| <= |s| && s[p..p + |Units(us[..n])|] == Units(us[..n])
    ensures var q, u := p + |Units(us[..n - 1])|, us[n - 1];
            && q + |u| < |s| && q + |u| + 1 == p + |Units(us[..n])|
            && s[p..q] == Units(us[..n - 1]) && s[q..q + |u|] == u && s[q + |u|] == US
  {
    var w, u := us[..n], us[n - 1];
    assert w == us[..n - 1] + [u];
    LinesSnoc(US, us[..n - 1], u);
    SliceOfThree(s, p, Units(us[..n - 1]), u);
  }

  lemma SliceOfThree(s: seq<byte>, p: nat, y: seq<byte>, u: seq<byte>)
    requires var x := y + u + [US]; p + |x| <= |s| && s[p..p + |x|] == x
    ensures s[p..p + |y|] == y && s[p + |y|..p + |y| + |u|] == u && s[p + |y| + |u|] == US
  {
    var x := y + u + [US];
    assert forall j | p <= j < p + |x| :: s[j] == s[p..p + |x|][j - p];
    assert forall j | p <= j < p + |y| :: s[j] == y[j - p];
    assert forall j | p + |y| <= j < p + |y| + |u| :: s[j] == u[j - p - |y|];
  }

  lemma NoUnits(us: seq<seq<byte>>, s: seq<byte>, p: nat)
    requires p <= |s|
    ensures Units(us[..0]) == [] && IsBehind(us, FRESH, s, p, 0)
  {
    assert us[..0] == [];
  }

  lemma {:induction false} UnitsReach(us: seq<seq<byte>>, s: seq<byte>, p: nat, n: nat) returns (cf: Attr)
    requires n <= |us| && p + |Units(us[..n])| <= |s| && s[p..p + |Units(us[..n])|] == Units(us[..n])
    requires forall u | u in us :: IsUnit(u)
    ensures IsBehind(us, cf, s, p + |Units(us[..n])|, n)
    ensures Run(FRESH, s, p) == Run(cf, s, p + |Units(us[..n])|)
    decreases n
  {
    hide Units, IsBehind, Run, IsUnit;
    NoUnits(us, s, p);
    if n == 0 {
      cf := FRESH;
    } else {
      UnitsSlices(us, s, p, n);
      assert us[n - 1] in us;
      var cf0 := UnitsReach(us, s, p, n - 1);
      cf := UnitRead(us, cf0, s, p + |Units(us[..n - 1])|, n - 1);
    }
  }

  /** Attributes as they should be: the copies see the first 19 units, and an empty one the text before it. */
  lemma UnitsCopied(us: seq<seq<byte>>, s: seq<byte>, p: nat)
    requires us != [] && p <= |s| && s[p..] == Units(us) + [FS]
    requires forall u | u in us :: IsUnit(u)
    ensures var r := Run(FRESH, s, p);
            IsFinal(r) && r.p == |s| && r.cf.units == Captures(UnitRules(|us|), us, Least(|us|, MAX_UNITS))
  {
    hide Units, Run, IsFinal, Captures, IsUnit, UnitRules, Least;
    TailOf(s, p, Units(us));
    UnitsEnd(us, s, p, p + |Units(us)|);
  }

  lemma UnitsEnd(us: seq<seq<byte>>, s: seq<byte>, p: nat, q: nat)
    requires us != [] && p <= q && q + 1 == |s| && s[p..q] == Units(us) && s[q] == FS
    requires forall u | u in us :: IsUnit(u)
    ensures var r := Run(FRESH, s, p);
            IsFinal(r) && r.p == |s| && r.cf.units == Captures(UnitRules(|us|), us, Least(|us|, MAX_UNITS))
  {
    hide Units, Run, IsFinal, IsBehind, Captures, IsUnit, Least;
    var cf := AllUnitsReach(us, s, p, q);
    LastUnit(us, cf, s, q);
  }

  lemma AllUnitsReach(us: seq<seq<byte>>, s: seq<byte>, p: nat, q: nat) returns (cf: Attr)
    requires p <= q <= |s| && s[p..q] == Units(us) && forall u | u in us :: IsUnit(u)
    ensures IsBehind(us, cf, s, q, |us|) && Run(FRESH, s, p) == Run(cf, s, q)
  {
    hide Units, Run, IsBehind, IsUnit;
    assert us[..|us|] == us;
    assert q == p + |Units(us)|;
    cf := UnitsReach(us, s, p, |us|);
  }

  lemma TailOf(s: seq<byte>, p: nat, x: seq<byte>)
    requires p <= |s| && s[p..] == x + [FS]
    ensures p + |x| + 1 == |s| && s[p..p + |x|] == x && s[p + |x|] == FS
  {
    assert s[p..p + |x|] == s[p..][..|x|] == x;
    assert s[p + |x|] == s[p..][|x|];
  }

  lemma LastUnit(us: seq<seq<byte>>, cf: Attr, s: seq<byte>, q: nat)
    requires us != [] && IsBehind(us, cf, s, q, |us|) && q + 1 == |s| && s[q] == FS
    ensures var r := Run(cf, s, q);
            IsFinal(r) && r.p == |s| && r.cf.units == Captures(UnitRules(|us|), us, Least(|us|, MAX_UNITS))
  {
    hide Captures, UnitRules, Since;
    assert Run(cf, s, q) == Run(cf.(st := Past), s, q + 1);
  }

  /** Texts with US behind each are units. */
  lemma {:induction false} CutUnits(x: seq<byte>) returns (us: seq<seq<byte>>)
    requires (forall b | b in x :: IsText(b)) && (x != [] ==> x[|x| - 1] == US)
    ensures Units(us) == x && forall u | u in us :: IsUnit(u)
    ensures x != [] ==> us != [] && (us[0] == [] <==> x[0] == US)
    decreases |x|
  {
    if x == [] {
      us := [];
    } else {
      var n := |x| - 1;
      var i := n;
      while i > 0 && x[i - 1] != US
        invariant 0 <= i <= n && forall k | i <= k < n :: x[k] != US
      {
        i := i - 1;
      }
      assert forall b | b in x[i..n] :: b in x && IsText(b);
      var before := CutUnits(x[..i]);
      us := before + [x[i..n]];
      LinesSnoc(US, before, x[i..n]);
      assert x == x[..i] + x[i..n] + [US];
    }
  }

  lemma UnitsBegin(us: seq<seq<byte>>)
    requires us != [] && us[0] != []
    ensures Units(us) != [] && Units(us)[0] == us[0][0]
  {
  }

  lemma OneUnit(u: seq<byte>)
    ensures Units([u]) == u + [US]
  {
    LinesSnoc(US, [], u);
    assert [] + [u] == [u];
  }

  /** What is accepted and not empty: units and FS, the first of them not empty unless the pointer is unset. */
  lemma UnitsFound(s: seq<byte>, p: nat) returns (us: seq<seq<byte>>)
    requires p < |s| && IsAttributes(s, p) && s[p] != US
    ensures us != [] && us[0] != [] && (forall u | u in us :: IsUnit(u)) && s[p..] == Units(us) + [FS]
  {
    var x := s[p..|s| - 1];
    us := CutUnits(x);
    assert s[p..] == x + [FS];
  }

  /** The copies in the message. */
  function Copied(units: seq<Captured>): seq<seq<byte>> {
    seq(|units|, k requires 0 <= k < |units| => Stored(Seen(units[k]), 3))
  }
}
