/** The machines of fsm/body.rl: each is a row of fields, read byte by byte. */
module FieldMachine {
  import opened Bytes
  import opened Numerals

  datatype Class = Printable | Digit | Xdigit | SOrC | Topology | Nothing

  predicate InClass(c: Class, b: byte) {
    match c
    case Printable => 0x20 <= b < 0x7F
    case Digit => IsDigit(b)
    case Xdigit => IsXdigit(b)
    case SOrC => b == 'S' as int || b == 'C' as int
    case Topology => 0x30 <= b <= 0x33
    case Nothing => false
  }

  /** What becomes of a field: it is copied to a char array, converted to a number of a bounded type,
      converted to bytes, or one of its bytes is looked at. */
  datatype Store = Skip | Copy(width: nat) | Strtol(bound: nat) | UnHex(width: nat) | Strbool | TrxCode | Topo

  /** One field: between `min` and `max` bytes of a class, then a separator. `optional` is the form
      "field or nothing at all, without an action"; `mark` says that its first byte sets the pointer `c`;
      `store` is done at the separator with what stands between `c` and the separator. */
  datatype Rule = Rule(cls: Class, min: nat, max: Option<nat>, optional: bool, mark: bool, store: Store, sep: byte)

  /** What the store action of a field saw: its own bytes; or, when the field is empty and `c` still
      points into an earlier one, the bytes from there; or an uninitialised `c`; or it did not happen. */
  datatype Captured = Taken(text: seq<byte>) | Stale(text: seq<byte>) | Wild | Absent

  datatype Conf = Conf(rule: nat, count: nat, mark: Option<nat>, out: seq<Captured>)

  const START: Conf := Conf(0, 0, None, [])

  ghost predicate Sane(cf: Conf, p: nat) {
    cf.count <= p && (cf.mark.Some? ==> cf.mark.value <= p)
  }

  function Capture(r: Rule, cf: Conf, s: seq<byte>, p: nat): Captured
    requires p < |s| && cf.count <= p && (cf.mark.Some? ==> cf.mark.value <= p)
  {
    if cf.count > 0 then Taken(s[p - cf.count..p])
    else if r.optional || r.store.Skip? then Absent
    else if cf.mark.Some? then Stale(s[cf.mark.value..p])
    else Wild
  }

  predicate Accepts(r: Rule, count: nat, b: byte) {
    InClass(r.cls, b) && (r.max.None? || count < r.max.value)
  }

  predicate Ends(r: Rule, count: nat, b: byte) {
    b == r.sep && (count >= r.min || (r.optional && count == 0))
  }

  /** One byte; nothing when there is no transition. */
  function Step(g: seq<Rule>, cf: Conf, s: seq<byte>, p: nat): (r: Option<Conf>)
    requires p < |s| && cf.count <= p && (cf.mark.Some? ==> cf.mark.value <= p)
    ensures r.Some? ==> Sane(r.value, p + 1)
  {
    if cf.rule >= |g| then None
    else
      var r := g[cf.rule];
      if Accepts(r, cf.count, s[p]) then
        Some(cf.(count := cf.count + 1, mark := if cf.count == 0 && r.mark then Some(p) else cf.mark))
      else if Ends(r, cf.count, s[p]) then
        Some(Conf(cf.rule + 1, 0, cf.mark, cf.out + [Capture(r, cf, s, p)]))
      else None
  }

  /** `p` stays at the byte without a transition. */
  datatype Halt = Halt(cf: Conf, p: nat, failed: bool)

  function Run(g: seq<Rule>, cf: Conf, s: seq<byte>, p: nat): (h: Halt)
    requires p <= |s| && cf.count <= p && (cf.mark.Some? ==> cf.mark.value <= p)
    ensures p <= h.p <= |s| && (!h.failed ==> h.p == |s|)
    decreases |s| - p
  {
    if p == |s| then Halt(cf, p, false)
    else
      var r := Step(g, cf, s, p);
      if r.None? then Halt(cf, p, true) else Run(g, r.value, s, p + 1)
  }

  /** `cs >= first_final`: between two fields, with the first `need` of them read. */
  predicate IsFinal(h: Halt, need: nat) {
    !h.failed && h.cf.count == 0 && h.cf.rule >= need
  }

  /** `write exec`, the loop over `*pp`. */
  method Exec(g: seq<Rule>, s: seq<byte>, p: nat) returns (h: Halt)
    requires p <= |s|
    ensures h == Run(g, START, s, p)
  {
    var cf, i := START, p;
    while i < |s|
      invariant p <= i <= |s| && Sane(cf, i)
      invariant Run(g, START, s, p) == Run(g, cf, s, i)
    {
      var r := Step(g, cf, s, i);
      if r.None? {
        return Halt(cf, i, true);
      }
      cf := r.value;
      i := i + 1;
    }
    h := Halt(cf, i, false);
  }

  // ----- a part of the bytes

  lemma StepAgrees(g: seq<Rule>, cf: Conf, s: seq<byte>, q: nat, p: nat)
    requires p < q <= |s| && cf.count <= p && (cf.mark.Some? ==> cf.mark.value <= p)
    ensures Step(g, cf, s[..q], p) == Step(g, cf, s, p)
  {
    assert s[..q][p - cf.count..p] == s[p - cf.count..p];
    if cf.mark.Some? {
      assert s[..q][cf.mark.value..p] == s[cf.mark.value..p];
    }
  }

  /** A machine that gets through the first bytes goes on from there. */
  lemma {:induction false} RunExtends(g: seq<Rule>, cf: Conf, s: seq<byte>, p: nat, q: nat)
    requires p <= q <= |s| && Sane(cf, p)
    ensures var h := Run(g, cf, s[..q], p);
            Sane(h.cf, h.p) && (!h.failed ==> Run(g, cf, s, p) == Run(g, h.cf, s, q))
    decreases q - p
  {
    hide Step;
    if p < q {
      StepAgrees(g, cf, s, q, p);
      var r := Step(g, cf, s, p);
      if r.Some? {
        RunExtends(g, r.value, s, p + 1, q);
      }
    }
  }

  /** A machine that stops has got through the bytes before. */
  lemma {:induction false} RunPrefix(g: seq<Rule>, cf: Conf, s: seq<byte>, p: nat)
    requires p <= |s| && Sane(cf, p)
    ensures var h := Run(g, cf, s, p); Run(g, cf, s[..h.p], p) == Halt(h.cf, h.p, false)
    decreases |s| - p
  {
    hide Step;
    var h := Run(g, cf, s, p);
    if p < h.p {
      StepAgrees(g, cf, s, h.p, p);
      RunPrefix(g, Step(g, cf, s, p).value, s, p + 1);
    }
  }

  /** Behind the last field nothing is counted; and a machine that stops has no transition. */
  lemma {:induction false} StopsForReason(g: seq<Rule>, cf: Conf, s: seq<byte>, p: nat)
    requires p <= |s| && Sane(cf, p) && cf.rule <= |g| && (cf.rule == |g| ==> cf.count == 0)
    ensures var h := Run(g, cf, s, p);
            && h.cf.rule <= |g| && (h.cf.rule == |g| ==> h.cf.count == 0)
            && (h.failed ==> h.p < |s| && (h.cf.rule == |g| || !Accepts(g[h.cf.rule], h.cf.count, s[h.p])))
    decreases |s| - p
  {
    if p < |s| && Step(g, cf, s, p).Some? {
      StopsForReason(g, Step(g, cf, s, p).value, s, p + 1);
    }
  }

  /** Bytes that end with a separator end between two fields. */
  lemma {:induction false} EndsBetween(g: seq<Rule>, cf: Conf, s: seq<byte>, p: nat, sep: byte)
    requires p < |s| && Sane(cf, p) && s[|s| - 1] == sep && forall r | r in g :: !InClass(r.cls, sep)
    requires !Run(g, cf, s, p).failed
    ensures Run(g, cf, s, p).cf.count == 0
    decreases |s| - p
  {
    hide InClass, Capture;
    var next := Step(g, cf, s, p).value;
    assert g[cf.rule] in g;
    if p + 1 < |s| {
      EndsBetween(g, next, s, p + 1, sep);
    } else {
      assert Run(g, next, s, p + 1) == Halt(next, p + 1, false);
    }
  }

  // ----- fields written one behind the other

  function Joined(g: seq<Rule>, ts: seq<seq<byte>>): seq<byte>
    requires |g| == |ts|
  {
    if g == [] then [] else ts[0] + [g[0].sep] + Joined(g[1..], ts[1..])
  }

  predicate Proper(r: Rule) {
    !InClass(r.cls, r.sep)
  }

  /** The text consists of bytes the field reads, and not too many. */
  predicate Clean(r: Rule, t: seq<byte>) {
    (forall b | b in t :: InClass(r.cls, b)) && (r.max.Some? ==> |t| <= r.max.value)
  }

  predicate LongEnough(r: Rule, t: seq<byte>) {
    |t| >= r.min || (r.optional && t == [])
  }

  lemma {:induction false} FieldBytes(g: seq<Rule>, cf: Conf, s: seq<byte>, p: nat, t: seq<byte>, k: nat)
    requires cf.rule < |g| && cf.count == 0 && Sane(cf, p)
    requires p + |t| <= |s| && s[p..p + |t|] == t
    requires Clean(g[cf.rule], t) && 0 < k <= |t|
    ensures var cf' := cf.(count := k, mark := if g[cf.rule].mark then Some(p) else cf.mark);
            Run(g, cf, s, p) == Run(g, cf', s, p + k)
    decreases k
  {
    var r := g[cf.rule];
    assert s[p + k - 1] == t[k - 1] && t[k - 1] in t;
    if k > 1 {
      FieldBytes(g, cf, s, p, t, k - 1);
    }
  }

  /** Reading one whole field and its separator. */
  lemma FieldRead(g: seq<Rule>, cf: Conf, s: seq<byte>, p: nat, t: seq<byte>)
    requires cf.rule < |g| && cf.count == 0 && Sane(cf, p)
    requires p + |t| < |s| && s[p..p + |t|] == t && s[p + |t|] == g[cf.rule].sep
    requires Proper(g[cf.rule]) && Clean(g[cf.rule], t)
    ensures var r := g[cf.rule];
            Run(g, cf, s, p) ==
              if LongEnough(r, t)
              then Run(g, After(r, cf, s, p, t), s, p + |t| + 1)
              else Halt(cf.(count := |t|, mark := if t != [] && r.mark then Some(p) else cf.mark), p + |t|, true)
  {
    if t != [] {
      FieldBytes(g, cf, s, p, t, |t|);
    }
  }

  /** A byte that is neither the field's nor its separator stops the machine. */
  lemma FieldHalts(g: seq<Rule>, cf: Conf, s: seq<byte>, p: nat, t: seq<byte>)
    requires cf.rule < |g| && cf.count == 0 && Sane(cf, p)
    requires p + |t| < |s| && s[p..p + |t|] == t && Clean(g[cf.rule], t)
    requires s[p + |t|] != g[cf.rule].sep && !InClass(g[cf.rule].cls, s[p + |t|])
    ensures var h := Run(g, cf, s, p); h.failed && h.p == p + |t| && h.cf.rule == cf.rule && h.cf.out == cf.out
  {
    hide InClass;
    if t != [] {
      FieldBytes(g, cf, s, p, t, |t|);
    }
  }

  function After(r: Rule, cf: Conf, s: seq<byte>, p: nat, t: seq<byte>): (cf': Conf)
    requires p + |t| < |s| && (cf.mark.Some? ==> cf.mark.value <= p)
    ensures Sane(cf', p + |t| + 1) && cf'.count == 0
  {
    var mark := if t != [] && r.mark then Some(p) else cf.mark;
    var c := if t != [] then Taken(t)
             else if r.optional || r.store.Skip? then Absent
             else if mark.Some? then Stale(s[mark.value..p])
             else Wild;
    Conf(cf.rule + 1, 0, mark, cf.out + [c])
  }

  // ----- rows of fields

  /** What stands between the place `c` points to and the beginning of field k; None when `c` was never set. */
  function Since(g: seq<Rule>, ts: seq<seq<byte>>, k: nat): Option<seq<byte>>
    requires k <= |ts| <= |g|
  {
    if k == 0 then None
    else
      var t, r, before := ts[k - 1], g[k - 1], Since(g, ts, k - 1);
      if t != [] && r.mark then Some(t + [r.sep])
      else if before.None? then None
      else Some(before.value + t + [r.sep])
  }

  /** What the store of field k sees when the texts are read one after the other. */
  function CaptureOf(g: seq<Rule>, ts: seq<seq<byte>>, k: nat): Captured
    requires k < |ts| <= |g|
  {
    if ts[k] != [] then Taken(ts[k])
    else if g[k].optional || g[k].store.Skip? then Absent
    else if Since(g, ts, k).Some? then Stale(Since(g, ts, k).value)
    else Wild
  }

  function Captures(g: seq<Rule>, ts: seq<seq<byte>>, n: nat): (cs: seq<Captured>)
    requires n <= |ts| <= |g|
    ensures |cs| == n
  {
    seq(n, k requires 0 <= k < n => CaptureOf(g, ts, k))
  }

  /** The machine at the beginning of field k. */
  ghost predicate IsAt(g: seq<Rule>, ts: seq<seq<byte>>, cf: Conf, s: seq<byte>, p: nat, k: nat)
    requires k <= |ts| <= |g|
  {
    && p <= |s| && Sane(cf, p)
    && cf.rule == k && cf.count == 0 && cf.out == Captures(g, ts, k)
    && (cf.mark.Some? <==> Since(g, ts, k).Some?)
    && (cf.mark.Some? ==> s[cf.mark.value..p] == Since(g, ts, k).value)
  }

  lemma FieldAdvances(g: seq<Rule>, ts: seq<seq<byte>>, cf: Conf, s: seq<byte>, p: nat, k: nat)
    requires k < |ts| <= |g| && IsAt(g, ts, cf, s, p, k)
    requires var t := ts[k]; p + |t| < |s| && s[p..p + |t|] == t && s[p + |t|] == g[k].sep
    ensures IsAt(g, ts, After(g[k], cf, s, p, ts[k]), s, p + |ts[k]| + 1, k + 1)
  {
    var t := ts[k];
    var cf' := After(g[k], cf, s, p, t);
    assert s[p..p + |t| + 1] == t + [g[k].sep];
    if cf.mark.Some? {
      var m := cf.mark.value;
      assert s[m..p + |t| + 1] == s[m..p] + t + [g[k].sep];
    }
    if t == [] {
      assert p + |t| == p;
    }
    assert cf'.out == Captures(g, ts, k + 1);
  }

  lemma JoinedFirst(g: seq<Rule>, ts: seq<seq<byte>>, k: nat, s: seq<byte>, p: nat)
    requires |g| == |ts| && k < |g| && p <= |s| && s[p..] == Joined(g[k..], ts[k..])
    ensures var t := ts[k];
            && p + |t| < |s| && s[p..p + |t|] == t && s[p + |t|] == g[k].sep
            && s[p + |t| + 1..] == Joined(g[k + 1..], ts[k + 1..])
  {
    var t, rest := ts[k], Joined(g[k + 1..], ts[k + 1..]);
    assert g[k..][1..] == g[k + 1..] && ts[k..][1..] == ts[k + 1..];
    assert s[p..] == t + [g[k].sep] + rest;
    assert |s| == p + |t| + 1 + |rest|;
    assert s[p..p + |t|] == s[p..][..|t|] == t;
    assert s[p + |t|] == s[p..][|t|];
    assert s[p + |t| + 1..] == s[p..][|t| + 1..] == rest;
  }

  /** The text is read whole: clean, long enough, and told from its separator. */
  ghost predicate IsRead(r: Rule, t: seq<byte>) {
    Proper(r) && Clean(r, t) && LongEnough(r, t)
  }

  /** Such texts are read one after the other, each field capturing its text. The row that is written
      may be shorter than the row `g` that is read. */
  lemma {:induction false} RowReaches(g: seq<Rule>, ts: seq<seq<byte>>, s: seq<byte>, p: nat, n: nat)
    returns (cf: Conf, p': nat)
    requires n <= |ts| <= |g| && p <= |s| && s[p..] == Joined(g[..|ts|], ts)
    requires forall k | 0 <= k < n :: IsRead(g[k], ts[k])
    ensures IsAt(g, ts, cf, s, p', n)
    ensures Run(g, START, s, p) == Run(g, cf, s, p') && s[p'..] == Joined(g[..|ts|][n..], ts[n..])
    decreases n
  {
    hide Run, Step, Joined, InClass, LongEnough, Clean, After;
    var w := g[..|ts|];
    if n == 0 {
      cf, p' := START, p;
      assert w[0..] == w && ts[0..] == ts && Captures(g, ts, 0) == [];
    } else {
      var cf0, p0 := RowReaches(g, ts, s, p, n - 1);
      JoinedFirst(w, ts, n - 1, s, p0);
      FieldRead(g, cf0, s, p0, ts[n - 1]);
      FieldAdvances(g, ts, cf0, s, p0, n - 1);
      cf, p' := After(g[n - 1], cf0, s, p0, ts[n - 1]), p0 + |ts[n - 1]| + 1;
    }
  }

  /** ... to the end of the bytes, */
  lemma RowRead(g: seq<Rule>, ts: seq<seq<byte>>, s: seq<byte>, p: nat) returns (h: Halt)
    requires |ts| <= |g| && p <= |s| && s[p..] == Joined(g[..|ts|], ts)
    requires forall k | 0 <= k < |ts| :: IsRead(g[k], ts[k])
    ensures h == Run(g, START, s, p) && !h.failed && h.p == |s|
    ensures h.cf.rule == |ts| && h.cf.count == 0 && h.cf.out == Captures(g, ts, |ts|)
  {
    hide Step, InClass, LongEnough, Clean;
    var w := g[..|ts|];
    var cf, p' := RowReaches(g, ts, s, p, |ts|);
    assert w[|ts|..] == [] && s[p'..] == [];
    h := Halt(cf, p', false);
  }

  /** or up to the first field that is too short, where the machine stops at the separator, */
  lemma RowStuck(g: seq<Rule>, ts: seq<seq<byte>>, s: seq<byte>, p: nat, bad: nat) returns (h: Halt)
    requires bad < |ts| <= |g| && p <= |s| && s[p..] == Joined(g[..|ts|], ts)
    requires forall k | 0 <= k < bad :: IsRead(g[k], ts[k])
    requires Proper(g[bad]) && Clean(g[bad], ts[bad]) && !LongEnough(g[bad], ts[bad])
    ensures h == Run(g, START, s, p) && h.failed && h.p < |s| && s[h.p] == g[bad].sep
    ensures h.cf.rule == bad && h.cf.out == Captures(g, ts, bad)
  {
    hide Run, Step, Joined, InClass, LongEnough, Clean;
    var w := g[..|ts|];
    var cf, p' := RowReaches(g, ts, s, p, bad);
    JoinedFirst(w, ts, bad, s, p');
    FieldRead(g, cf, s, p', ts[bad]);
    h := Run(g, START, s, p);
  }

  /** or up to the first byte that its field cannot hold. */
  lemma RowHalts(g: seq<Rule>, ts: seq<seq<byte>>, s: seq<byte>, p: nat, bad: nat, i: nat) returns (h: Halt)
    requires bad < |ts| <= |g| && p <= |s| && s[p..] == Joined(g[..|ts|], ts)
    requires forall k | 0 <= k < bad :: IsRead(g[k], ts[k])
    requires i < |ts[bad]| && Clean(g[bad], ts[bad][..i])
    requires !InClass(g[bad].cls, ts[bad][i]) && ts[bad][i] != g[bad].sep
    ensures h == Run(g, START, s, p) && h.failed && h.p < |s| && s[h.p] == ts[bad][i]
    ensures h.cf.rule == bad && h.cf.out == Captures(g, ts, bad)
  {
    hide Run, Step, Joined, InClass, LongEnough, Clean;
    var w := g[..|ts|];
    var cf, p' := RowReaches(g, ts, s, p, bad);
    JoinedFirst(w, ts, bad, s, p');
    assert s[p'..p' + i] == ts[bad][..i] && s[p' + i] == ts[bad][i];
    FieldHalts(g, cf, s, p', ts[bad][..i]);
    h := Run(g, START, s, p);
  }

  // ----- stale texts

  lemma NeverNul(c: Class, b: byte)
    requires InClass(c, b)
    ensures b != 0
  {
  }

  /** What a stale pointer shows begins with a character of an earlier field. */
  lemma {:induction false} SinceMeans(g: seq<Rule>, ts: seq<seq<byte>>, k: nat)
    requires k <= |ts| <= |g| && forall j | 0 <= j < k :: Clean(g[j], ts[j])
    ensures var x := Since(g, ts, k); x.Some? ==> x.value != [] && x.value[0] != 0
  {
    if k > 0 {
      SinceMeans(g, ts, k - 1);
      var t := ts[k - 1];
      if t != [] {
        assert t[0] in t;
        NeverNul(g[k - 1].cls, t[0]);
      }
    }
  }

  /** Once the first field has set the pointer, no later one finds it unset. */
  lemma {:induction false} SinceFirst(g: seq<Rule>, ts: seq<seq<byte>>, k: nat)
    requires 0 < k <= |ts| <= |g| && ts[0] != [] && g[0].mark
    ensures Since(g, ts, k).Some?
  {
    if k > 1 {
      SinceFirst(g, ts, k - 1);
    }
  }

  /** Every text that was captured consists of bytes its field may hold, whatever was read. */
  lemma {:induction false} TakenIsClean(g: seq<Rule>, cf: Conf, s: seq<byte>, p: nat)
    requires p <= |s| && Sane(cf, p) && |cf.out| == cf.rule <= |g|
    requires cf.rule < |g| ==> Clean(g[cf.rule], s[p - cf.count..p])
    requires forall k | 0 <= k < |cf.out| :: IsTaken(g[k], cf.out[k])
    ensures var h := Run(g, cf, s, p);
            && |h.cf.out| == h.cf.rule <= |g|
            && forall k | 0 <= k < |h.cf.out| :: IsTaken(g[k], h.cf.out[k])
    decreases |s| - p
  {
    hide Clean, InClass;
    if p < |s| && Step(g, cf, s, p).Some? {
      var r, next := g[cf.rule], Step(g, cf, s, p).value;
      if Accepts(r, cf.count, s[p]) {
        CleanGrows(r, s, p - cf.count, p);
      } else {
        NothingIsClean(g[cf.rule + 1..], s, p + 1);
      }
      TakenIsClean(g, next, s, p + 1);
    }
  }

  ghost predicate IsTaken(r: Rule, c: Captured) {
    && (c.Taken? ==> Clean(r, c.text))
    && (r.min > 0 ==> c.Taken? || (r.optional && c.Absent?))
  }

  /** The texts of fields that were read. */
  lemma {:induction false} ReadIsRow(g: seq<Rule>, cf: Conf, s: seq<byte>, p: nat) returns (ts: seq<seq<byte>>)
    requires p <= |s| && Sane(cf, p) && cf.rule <= |g|
    requires cf.rule == |g| ==> cf.count == 0
    requires cf.rule < |g| ==> Clean(g[cf.rule], s[p - cf.count..p])
    requires var h := Run(g, cf, s, p); !h.failed && h.cf.count == 0
    ensures var n := Run(g, cf, s, p).cf.rule;
            && n == cf.rule + |ts| <= |g|
            && s[p - cf.count..] == Joined(g[cf.rule..n], ts)
            && forall k | 0 <= k < |ts| :: Clean(g[cf.rule + k], ts[k]) && LongEnough(g[cf.rule + k], ts[k])
    decreases |s| - p
  {
    hide Clean, LongEnough, Joined, InClass, Capture;
    var start := p - cf.count;
    if p == |s| {
      ts := [];
      NoFields(g, cf.rule, s, start);
    } else {
      var r, next := g[cf.rule], Step(g, cf, s, p).value;
      if Accepts(r, cf.count, s[p]) {
        CleanGrows(r, s, start, p);
        ts := ReadIsRow(g, next, s, p + 1);
      } else {
        NothingIsClean(g[cf.rule + 1..], s, p + 1);
        FieldIsLongEnough(r, cf.count, s, start, p);
        var rest := ReadIsRow(g, next, s, p + 1);
        ts := [s[start..p]] + rest;
        RowGrows(g, cf.rule, s, start, p, rest);
      }
    }
  }

  lemma NoFields(g: seq<Rule>, k: nat, s: seq<byte>, start: nat)
    requires k <= |g| && start == |s|
    ensures s[start..] == Joined(g[k..k], [])
  {
  }

  lemma CleanGrows(r: Rule, s: seq<byte>, start: nat, p: nat)
    requires start <= p < |s| && Clean(r, s[start..p]) && Accepts(r, p - start, s[p])
    ensures Clean(r, s[start..p + 1])
  {
    hide InClass;
    assert s[start..p + 1] == s[start..p] + [s[p]];
  }

  lemma FieldIsLongEnough(r: Rule, count: nat, s: seq<byte>, start: nat, p: nat)
    requires start <= p < |s| && count == p - start && Ends(r, count, s[p])
    ensures LongEnough(r, s[start..p]) && s[p] == r.sep
  {
  }

  lemma JoinedCons(r: Rule, t: seq<byte>, g: seq<Rule>, ts: seq<seq<byte>>)
    requires |g| == |ts|
    ensures Joined([r] + g, [t] + ts) == t + [r.sep] + Joined(g, ts)
  {
    assert ([r] + g)[1..] == g && ([t] + ts)[1..] == ts;
  }

  lemma RowGrows(g: seq<Rule>, k: nat, s: seq<byte>, start: nat, p: nat, rest: seq<seq<byte>>)
    requires k + 1 + |rest| <= |g| && start <= p < |s| && s[p] == g[k].sep
    requires s[p + 1..] == Joined(g[k + 1..k + 1 + |rest|], rest)
    ensures s[start..] == Joined(g[k..k + 1 + |rest|], [s[start..p]] + rest)
  {
    hide Joined;
    JoinedCons(g[k], s[start..p], g[k + 1..k + 1 + |rest|], rest);
    assert [g[k]] + g[k + 1..k + 1 + |rest|] == g[k..k + 1 + |rest|];
    SplitAt(s, start, p);
  }

  lemma SplitAt(s: seq<byte>, start: nat, p: nat)
    requires start <= p < |s|
    ensures s[start..] == s[start..p] + [s[p]] + s[p + 1..]
  {
  }

  /** The language of a machine: it gets through the bytes and stands behind n fields if and only if the
      bytes are a row of n clean and long enough texts. */
  lemma AcceptsRows(g: seq<Rule>, s: seq<byte>, p: nat, n: nat)
    requires p <= |s| && n <= |g| && forall r | r in g :: Proper(r)
    ensures (var h := Run(g, START, s, p); !h.failed && h.cf.count == 0 && h.cf.rule == n)
       <==> exists ts :: |ts| == n && IsRow(g[..n], ts) && s[p..] == Joined(g[..n], ts)
  {
    hide Run, Joined, Clean, LongEnough;
    var h := Run(g, START, s, p);
    if !h.failed && h.cf.count == 0 && h.cf.rule == n {
      NothingIsClean(g, s, p);
      var ts := ReadIsRow(g, START, s, p);
      assert g[0..n] == g[..n];
      assert IsRow(g[..n], ts);
    }
    if ts :| |ts| == n && IsRow(g[..n], ts) && s[p..] == Joined(g[..n], ts) {
      assert forall k | 0 <= k < n :: g[..n][k] == g[k] && g[k] in g;
      var h' := RowRead(g, ts, s, p);
    }
  }

  ghost predicate IsRow(g: seq<Rule>, ts: seq<seq<byte>>) {
    |g| == |ts| && forall k | 0 <= k < |g| :: Clean(g[k], ts[k]) && LongEnough(g[k], ts[k])
  }

  lemma NothingIsClean(g: seq<Rule>, s: seq<byte>, p: nat)
    requires p <= |s|
    ensures s[p..p] == [] && (g != [] ==> Clean(g[0], s[p..p]))
  {
  }

  // ----- one reading only

  predicate IsSeparator(b: byte) {
    b == FS || b == US
  }

  function Separators(s: seq<byte>): nat {
    if s == [] then 0 else (if IsSeparator(s[0]) then 1 else 0) + Separators(s[1..])
  }

  lemma {:induction false} SeparatorsConcat(a: seq<byte>, b: seq<byte>)
    ensures Separators(a + b) == Separators(a) + Separators(b)
  {
    if a == [] {
      assert a + b == b;
    } else {
      assert (a + b)[1..] == a[1..] + b;
      SeparatorsConcat(a[1..], b);
    }
  }

  lemma {:induction false} NoSeparators(s: seq<byte>)
    ensures Separators(s) == 0 <==> forall b | b in s :: !IsSeparator(b)
  {
    if s != [] {
      NoSeparators(s[1..]);
      assert forall b | b in s :: b == s[0] || b in s[1..];
    }
  }

  ghost predicate Separated(g: seq<Rule>) {
    forall r | r in g :: IsSeparator(r.sep) && forall b: byte | IsSeparator(b) :: !InClass(r.cls, b)
  }

  function Surplus(ts: seq<seq<byte>>): nat {
    if ts == [] then 0 else Separators(ts[0]) + Surplus(ts[1..])
  }

  lemma {:induction false} SeparatorsOfRow(g: seq<Rule>, ts: seq<seq<byte>>)
    requires |g| == |ts| && Separated(g)
    ensures Separators(Joined(g, ts)) == |g| + Surplus(ts)
  {
    if g != [] {
      assert g[0] in g;
      SeparatorsOfRow(g[1..], ts[1..]);
      SeparatorsConcat(ts[0] + [g[0].sep], Joined(g[1..], ts[1..]));
      SeparatorsConcat(ts[0], [g[0].sep]);
      assert [g[0].sep][1..] == [];
    }
  }

  lemma {:induction false} NoSurplus(ts: seq<seq<byte>>)
    ensures Surplus(ts) == 0 <==> forall k | 0 <= k < |ts| :: Separators(ts[k]) == 0
  {
    if ts != [] {
      NoSurplus(ts[1..]);
      if Surplus(ts) == 0 {
        forall k | 0 <= k < |ts| ensures Separators(ts[k]) == 0 {
          if k > 0 {
            assert ts[k] == ts[1..][k - 1];
          }
        }
      } else if Separators(ts[0]) == 0 {
        var k :| 0 <= k < |ts[1..]| && Separators(ts[1..][k]) != 0;
        assert ts[k + 1] == ts[1..][k];
      }
    }
  }

  lemma CleanHasNone(r: Rule, t: seq<byte>)
    requires Clean(r, t) && forall b: byte | IsSeparator(b) :: !InClass(r.cls, b)
    ensures Separators(t) == 0
  {
    NoSeparators(t);
  }

  lemma {:induction false} RowsAgree(g: seq<Rule>, ts: seq<seq<byte>>, us: seq<seq<byte>>)
    requires |g| == |ts| == |us| && Separated(g) && Joined(g, ts) == Joined(g, us)
    requires forall k | 0 <= k < |g| :: Separators(ts[k]) == 0 == Separators(us[k])
    ensures ts == us
  {
    if g != [] {
      assert g[0] in g;
      FirstAgrees(ts[0], us[0], g[0].sep, Joined(g[1..], ts[1..]), Joined(g[1..], us[1..]));
      RowsAgree(g[1..], ts[1..], us[1..]);
      assert ts == [ts[0]] + ts[1..] && us == [us[0]] + us[1..];
    }
  }

  lemma SeparatorAt(t: seq<byte>, sep: byte, x: seq<byte>)
    requires IsSeparator(sep) && Separators(t) == 0
    ensures var a := t + [sep] + x;
            IsSeparator(a[|t|]) && forall i | 0 <= i < |t| :: !IsSeparator(a[i])
  {
    NoSeparators(t);
    assert forall i | 0 <= i < |t| :: (t + [sep] + x)[i] == t[i] && t[i] in t;
  }

  lemma FirstAgrees(t: seq<byte>, u: seq<byte>, sep: byte, x: seq<byte>, y: seq<byte>)
    requires IsSeparator(sep) && Separators(t) == 0 == Separators(u) && t + [sep] + x == u + [sep] + y
    ensures t == u && x == y
  {
    var a, b := t + [sep] + x, u + [sep] + y;
    SeparatorAt(t, sep, x);
    SeparatorAt(u, sep, y);
    assert |t| == |u|;
    assert a[..|t|] == t && b[..|u|] == u;
    assert a[|t| + 1..] == x && b[|u| + 1..] == y;
  }

  /** Whatever the texts hold, also separators: a machine that gets through a row has read just these texts. */
  lemma OnlyReading(g: seq<Rule>, ts: seq<seq<byte>>, s: seq<byte>, p: nat)
    requires |g| == |ts| && Separated(g) && (forall r | r in g :: Proper(r)) && p <= |s| && s[p..] == Joined(g, ts)
    requires var h := Run(g, START, s, p); !h.failed && h.cf.count == 0 && h.cf.rule <= |g|
    ensures IsRow(g, ts)
  {
    hide Run, Joined, Clean, LongEnough, Separators, Surplus, InClass;
    var n := Run(g, START, s, p).cf.rule;
    AcceptsRows(g, s, p, n);
    var us :| |us| == n && IsRow(g[..n], us) && s[p..] == Joined(g[..n], us);
    assert forall k | 0 <= k < n :: g[..n][k] == g[k] && g[k] in g;
    assert Separated(g[..n]);
    SeparatorsOfRow(g[..n], us);
    SeparatorsOfRow(g, ts);
    forall k | 0 <= k < n ensures Separators(us[k]) == 0 {
      CleanHasNone(g[k], us[k]);
    }
    NoSurplus(us);
    assert n == |g| && g[..n] == g;
    NoSurplus(ts);
    RowsAgree(g, ts, us);
  }
}
