/** The types that are written in one form and read in another, or not at all. */
module Unread {
  import opened Bytes
  import opened Numerals
  import opened Message
  import opened FieldMachine
  import opened Bodies
  import opened Conditions
  import opened Parser
  import opened Codec
  import H = Header
  import A = Attributes
  import Serialization

  /** P1 and A1 have no body parser, I1 and A2 no place in the header machine: they are written, but the
      assertion of `serialize` that its result can be parsed fails for every one of them. */
  lemma NeverRead(m: Msg, want: int)
    requires m.body.BodyP1? || m.body.BodyA1? || m.body.BodyI1? || m.body.BodyA2?
    requires m.token < 0x100_0000 && want in {0, TypeOf(m.body) as int}
    ensures Parse(Payload(m), want) == Rejected
  {
    hide Payload, PrintHex, ReadHead;
    HeadOutcome(m, want);
    HeadBytes(m);
  }

  // ----- T4 is written with US behind each version, and read with FS

  function T4Rules(n: nat): seq<Rule> {
    seq(n, _ => TextRule(4))
  }

  /** Byte i is read: a printable character, or an FS behind one. */
  predicate IsTaken(s: seq<byte>, p: nat, i: nat, count: nat)
    requires p <= i < |s|
  {
    InClass(Printable, s[i]) || (s[i] == FS && if i == p then count > 0 else s[i - 1] != FS)
  }

  /** The machine takes printable characters and FS behind them: it never gets past a US. */
  lemma {:induction false} NeverPastUs(n: nat, cf: Conf, s: seq<byte>, p: nat, us: nat)
    requires p <= us < |s| && s[us] == US && Sane(cf, p) && cf.rule + (|s| - p) <= n && Wild !in cf.out
    ensures var h := Run(T4Rules(n), cf, s, p);
            && h.failed && h.p <= us && !InClass(Printable, s[h.p])
            && (forall i | p <= i < h.p :: IsTaken(s, p, i, cf.count)) && !IsTaken(s, p, h.p, cf.count)
            && Wild !in h.cf.out && |h.cf.out| <= |cf.out| + (h.p - p)
    decreases |s| - p
  {
    hide InClass;
    UsIsNotPrintable();
    var g := T4Rules(n);
    assert g[cf.rule] == TextRule(4);
    assert IsTaken(s, p, p, cf.count) <==> Step(g, cf, s, p).Some?;
    if Step(g, cf, s, p).Some? {
      var next := Step(g, cf, s, p).value;
      NeverPastUs(n, next, s, p + 1, us);
      var h := Run(g, next, s, p + 1);
      forall i | p < i <= h.p ensures IsTaken(s, p, i, cf.count) <==> IsTaken(s, p + 1, i, next.count) {
        assert s[p] != FS <==> next.count > 0;
      }
    }
  }

  lemma UsIsNotPrintable()
    ensures !InClass(Printable, US) && !InClass(Printable, FS)
  {
  }

  lemma VersionWritten(vs: seq<seq<byte>>)
    requires vs != []
    ensures Flat(VersionParts(vs)) == Flat(VersionParts(vs[..|vs| - 1])) + Text(vs[|vs| - 1]) + [US]
  {
    hide Flat, U, Text;
    var n := |vs| - 1;
    FlatConcat(VersionParts(vs[..n]), U(Str(vs[n])));
    Serialization.FlatU(vs[n]);
  }

  lemma {:induction false} FirstVersion(vs: seq<seq<byte>>)
    requires vs != []
    ensures var f, n := Flat(VersionParts(vs)), |Text(vs[0])|;
            |f| > n && f[..n] == Text(vs[0]) && f[n] == US
    decreases |vs|
  {
    hide Text, Flat, VersionParts;
    VersionWritten(vs);
    if |vs| == 1 {
      assert vs[..0] == [];
      NoVersion();
    } else {
      FirstVersion(vs[..|vs| - 1]);
    }
  }

  lemma NoVersion()
    ensures Flat(VersionParts([])) == []
  {
  }

  lemma T4Bytes(vs: seq<seq<byte>>, s: seq<byte>, p: nat)
    requires vs != [] && p <= |s| && s[p..] == Flat(BodyParts(BodyT4(vs)))
    ensures var n := |Text(vs[0])|; p + n < |s| && s[p..p + n] == Text(vs[0]) && s[p + n] == US
  {
    hide Flat, VersionParts, Text;
    var f, n := Flat(VersionParts(vs)), |Text(vs[0])|;
    FirstVersion(vs);
    FlatConcat(VersionParts(vs), [Sep(FS)]);
    Serialization.FlatOne(Sep(FS));
    assert s[p..] == f + [FS];
    assert s[p..p + n] == s[p..][..n] == f[..n];
    assert s[p + n] == s[p..][n];
  }

  /** What `parse_message` makes of a byte its attribute machine meets first, when it is no text. */
  lemma NoText(s: seq<byte>, p: nat)
    requires p < |s| && !InClass(Printable, s[p])
    ensures var a := A.Run(A.FRESH, s, p);
            (Wild in a.cf.units <==> s[p] == US) && (s[p] != US ==> !A.IsFinal(a))
  {
    A.UnsetExactly(s, p);
  }

  /** Up to its first US the text consists of printable texts with one FS behind each but perhaps the last. */
  predicate ReachesUs(t: seq<byte>) {
    forall i | 0 <= i < IndexOf(t, US, 0) :: InClass(Printable, t[i]) || (t[i] == FS && i > 0 && t[i - 1] != FS)
  }

  lemma PlainReaches(a: seq<byte>)
    requires IsPlain(a)
    ensures ReachesUs(Text(a))
  {
    forall i | 0 <= i < |Text(a)| ensures InClass(Printable, Text(a)[i]) {
      assert Text(a)[i] in Text(a);
    }
  }

  /** The byte at which the machine stops is a US exactly if the text lets it come there. */
  lemma StopsAtUs(t: seq<byte>, s: seq<byte>, p: nat, q: nat)
    requires p <= q <= p + |t| < |s| && s[p..p + |t|] == t && s[p + |t|] == US
    requires (forall i | p <= i < q :: IsTaken(s, p, i, 0)) && !IsTaken(s, p, q, 0)
    ensures s[q] == US <==> ReachesUs(t)
  {
    hide InClass;
    UsIsNotPrintable();
    assert forall i | 0 <= i < |t| :: t[i] == s[p..p + |t|][i] == s[p + i];
    forall i | p <= i < q ensures s[i] != US {
      assert IsTaken(s, p, i, 0);
    }
    var n := q - p;
    FirstIs(t, n);
    if s[q] == US {
      forall i | 0 <= i < n ensures InClass(Printable, t[i]) || (t[i] == FS && i > 0 && t[i - 1] != FS) {
        assert IsTaken(s, p, p + i, 0) && s[p + i] == t[i];
      }
    }
  }

  lemma {:induction false} FirstIs(t: seq<byte>, n: nat)
    requires n <= |t| && forall i | 0 <= i < n :: t[i] != US
    ensures n == |t| || t[n] == US <==> IndexOf(t, US, 0) == n
    ensures n <= IndexOf(t, US, 0)
  {
  }

  /** The body machine of a T4 stops at the first US at the latest, and reports no error. */
  lemma BodyOfT4(vs: seq<seq<byte>>, s: seq<byte>, p: nat) returns (q: nat)
    requires vs != [] && |vs[0]| <= 20 && p <= |s| && s[p..] == Flat(BodyParts(BodyT4(vs)))
    ensures var r := ReadBody(FROB_T4, s, p);
            && r.code == H.Ok && r.body.Some? && q == r.p <= p + |Text(vs[0])| < |s| && !InClass(Printable, s[q])
            && (s[q] == US <==> ReachesUs(Text(vs[0])))
  {
    hide Flat, BodyParts, Text, Run, InClass, Build, ValuesRead, IsTaken, ReachesUs;
    var t := Text(vs[0]);
    T4Bytes(vs, s, p);
    NeverPastUs(|s|, START, s, p, p + |t|);
    q := ReadBody(FROB_T4, s, p).p;
    StopsAtUs(t, s, p, q);
    TextIsShort(vs[0]);
    OutIsSafe(Run(T4Rules(|s|), START, s, p), |s|);
  }

  lemma TextIsShort(a: seq<byte>)
    ensures |Text(a)| <= |a|
  {
  }

  lemma OutIsSafe(h: Halt, n: nat)
    requires |h.cf.out| <= n && |h.cf.out| <= 20 && Wild !in h.cf.out
    ensures IsSafe(FROB_T4, T4Rules(n), h.cf.out)
  {
    forall k | 0 <= k < |h.cf.out| ensures h.cf.out[k] != Wild {
      assert h.cf.out[k] in h.cf.out;
    }
  }

  lemma FirstIsSmall(b: Body)
    requires b.BodyT4? && Sized(b)
    ensures |b.versions| > 0 && |b.versions[0]| <= 20
  {
    assert b.versions[0] in b.versions;
  }

  /** No T4 is ever accepted, whatever it holds. The reader comes to the US behind the first version, or to one in it,
      takes it for an empty attribute, and copies that from a pointer that was never set, exactly if the bytes
      before are such as it can read. */
  lemma T4NeverRead(m: Msg, want: int)
    requires m.body.BodyT4? && Sized(m.body) && m.token < 0x100_0000 && want in {0, TypeOf(m.body) as int}
    ensures Parse(Payload(m), want) == if ReachesUs(Text(m.body.versions[0])) then Undefined else Rejected
  {
    hide Payload, PrintHex, ReadHead, ReadBody, Flat, BodyParts, A.Run, A.IsFinal, ReachesUs, IsType, Text, InClass;
    var s, p, vs := Payload(m), |PrintHex(m.token)| + 4, m.body.versions;
    HeadOutcome(m, want);
    HeadBytes(m);
    FirstIsSmall(m.body);
    var q := BodyOfT4(vs, s, p);
    NoText(s, q);
  }
}
